# A verified model of the ADS author-network back end

The system answers one question: how is one astronomer connected to another
through the papers they wrote together? It looks up author records in the
NASA Astrophysics Data System (ADS) and caches them. It runs a bidirectional
breadth-first search over the coauthor graph and prunes that graph to the
shortest connecting paths. It then ranks, serialises and prints the chains of
authors it found. A small Go relay publishes search progress with expiring
keys, and a stats job folds Pub/Sub messages into hourly series.

This project models the sequential logic of that system in Dafny and proves
what each piece promises. There is one module per source file:

- `Relay` (progress_relay/relay.go): the two parallel maps of the progress
  store as a class. It checks store calls in a fixed order. A get never looks
  at an entry's age. A sweep evicts every entry older than 60 seconds.
- `AdsName` (ads_name.py): the "Last, First Middle" parser with the `=`, `<`
  and `>` modifiers, the compatible-name equality (which is not transitive)
  and the level of detail.
- `NameAware` (name_aware.py): the dictionary bucketed by last name, looked up
  by that equality and not by hashing, and the set built on it.
- `DocumentRecords` (appa/records/document_record.py): the compress and
  decompress round trip and the deletion of an author from the parallel lists.
- `AdsBuddy` and `AppaAdsBuddy` (ads_buddy.py, appa/ads_buddy.py): bibcode and
  ORCID id validation, ORCID normalisation, the record builders, the
  invalid-author filter, the name choice for an ORCID id and the
  de-duplicating prefetch queue.
- `CacheBuddy` (cache_buddy.py): cache-key validation, age-based expiry and
  the in-memory cache over a backing store given as a map.
- `PathNodes`, `PathFinders` and `FinalGraph` (path_node.py, path_finder.py):
  the bidirectional search. It always expands the smaller frontier and
  records strictly increasing distances. It then prunes every link that is
  not on a shortest path.
- `RouteGraph`, `RouteRanker`, `RouteJsonifyer` and `RoutePrinter`
  (route_ranker.py, route_jsonifyer.py, route_printer.py): author chains,
  affiliation canonicalisation, the rules that invalidate a chain, the
  ranking, the JSON tree and the text table.
- `Repository` and `AppaRepository` (repository.py, appa/repository.py):
  coauthor indexes built over a given list of documents.
- `Stats` (stats/main.py): the message de-duplication fold and the hourly
  series bookkeeping.

Helper modules model what the Python code takes from its language: `Wrappers`
(Option and Result), `PyStr` (str methods, `int()` parsing, string order) and
`Sorting`. `AuthorRecords` models the author record that the
repositories and the cache use. Its `name` and `documents` are the two
fields author_record.py:8-20 declares. Its `coauthors`, `appearsAs` and
`timestamp` are the fields that repository.py:83-88 and cache_buddy.py set
and read.

Code that changes state step by step is modelled imperatively:
- the relay, the name-aware dictionary and the document record are classes;
- the search works over heap nodes;
- every loop of the source is a method with invariants.
Each such method is proved equal to a specification function, and the
properties are proved about those functions as lemmas. Calls that reach
outside the process are parameters of the model: ADS queries, the cache
back end, the clock, Pub/Sub and Monitoring. So is `ADSName.parse` where a
proof would otherwise have to unfold the parser.

## Model

| member | source | states |
|---|---|---|
| Relay.StoreCheck | progress_relay/relay.go:53-82 | the store checks in their order: no error exactly when the token matches and key and value are non-empty and within 100 and 1000 bytes; otherwise the first failing check's error |
| Relay.StoreStep | progress_relay/relay.go:53-85 | a refused store leaves both maps as they were; an accepted one writes the value and the time `now` under the key |
| Relay.GetStep | progress_relay/relay.go:99-119 | found exactly for a valid key present in the value map, with its value; unknown key for a valid absent key; size errors otherwise; the age is never looked at |
| Relay.Expired | progress_relay/relay.go:145-146 | the keys a sweep evicts are exactly those with `now - timestamp > 60` |
| Relay.SweepStep | progress_relay/relay.go:142-153 | both maps lose exactly the expired keys, and the count is their number |
| Relay.Store.constructor | progress_relay/relay.go:21-22 | both maps start empty |
| Relay.Store.StoreRequest | progress_relay/relay.go:53-85 | the handler's new state and error are those of `StoreStep`, and its body is `StoreBody` of that error; the maps keep the same key set |
| Relay.Ascii | progress_relay/relay.go:55 | the bytes written for a text: one per character, with that character's code when it is below 256 |
| Relay.StoreBody | progress_relay/relay.go:55-82 | the store handler's response body: the refusal's own text, and empty exactly when the value was stored |
| Relay.GetBody | progress_relay/relay.go:101-119 | the get handler's response body: the stored value itself when found, otherwise the text of the refusal or `{"error": "invalid key"}` |
| Relay.StoreBodiesDistinct | progress_relay/relay.go:55-85 | two store outcomes write the same body exactly when they are the same outcome, so each refusal and the silent success can be told apart |
| Relay.GetErrorBodiesDistinct | progress_relay/relay.go:101-116 | the three refusals of a get write three different bodies |
| Relay.Store.GetRequest | progress_relay/relay.go:99-119 | reads only, answers what `GetStep` answers, and writes `GetBody` of that answer |
| Relay.Store.Sweep | progress_relay/relay.go:142-153 | the Range loop over the timestamps deletes and counts exactly what `SweepStep` does |
| Relay.Store.EvictIfOld | progress_relay/relay.go:146-150 | one callback: deletes the key from both maps exactly when it is older than 60 seconds |
| Relay.StepsPreserveSameKeys | progress_relay/relay.go:84-85 | store and sweep keep the two maps on the same key set |
| Relay.GetAfterStore | progress_relay/relay.go:84-85 | an accepted store is read back by the next get |
| Relay.LastWriteWins | progress_relay/relay.go:84-85 | of two accepted writes to a key, a get returns the second value |
| Relay.StoreIdempotent | progress_relay/relay.go:84-85 | repeating a store at the same time leaves the state one store leaves |
| Relay.StoreIsolatesKeys | progress_relay/relay.go:84-85 | a store changes what a get of any other key answers in no way |
| Relay.LimitsAreInclusive | progress_relay/relay.go:68-82 | a 100-byte key and a 1000-byte value are accepted; 101 and 1001 bytes are refused with the matching error |
| Relay.SweepBoundary | progress_relay/relay.go:146 | an entry written at `t` survives a sweep at `t + 60` and is gone after one at `t + 61` |
| Relay.SweepKeepsYoungEntries | progress_relay/relay.go:113-119 | after a sweep, a get finds exactly the entries that were present and not expired |
| Relay.NeverWrittenIsUnknown | progress_relay/relay.go:114-116 | on the empty store every valid key is answered with the unknown-key error |
| AdsName.NameOrInitial | ads_name.py:79-91 | a token is one of name or initial, never both; it is an initial exactly when it has length 1, or length 2 and ends in '.'; the initial is the lowered first character, the name the lowered token |
| AdsName.WithModifier | ads_name.py:68-77 | a last name longer than one character that starts with '=', '<' or '>' loses that character and sets exactly the matching flag; the dropped prefix and the kept surname give back the input |
| AdsName.Create | ads_name.py:33-77 | the constructor fails exactly for a middle name without a first name and for a comma followed by whitespace only (the IndexError of `given_parts[0]`); every name it builds is well formed, and the one-string form keeps the text as the original name; the fields of a one-string name are those `ParseOneString` and `ParseOfParts` give |
| AdsName.LevelOfDetail | ads_name.py:205-213 | the detail score lies between 100 and 133 |
| AdsName.LevelShowsParts | ads_name.py:205-213 | two names have the same score exactly when they have the same kinds of first and middle parts |
| AdsName.EqualsText | ads_name.py:99-104 | comparing with a string parses it first; no answer exactly where the parse raises, otherwise the name equality |
| AdsName.Str | ads_name.py:173-197 | `str` ends with the full name, the modifier characters coming in front of it |
| AdsName.StrModifiers | ads_name.py:189-197 | for a constructed name `str` is the full name alone exactly when no flag is set, and otherwise the full name behind the single character ('=', '<' or '>') of the flag that is set |
| AdsName.BareOriginalName | ads_name.py:167-171 | no result exactly when the original text is empty (the IndexError of `original_name[0]`); otherwise a leading modifier character is dropped and any other text is returned as it is |
| AdsName.OneStringMatchesParts | ads_name.py:44-66 | "last, first middle" as one string builds the same name as the separate parts |
| AdsName.PartOfToken | ads_name.py:79-91 | a given-name token is read regardless of case, "J" and "J." give the same initial, and `full_name` writes the part back as the lower-case token, an initial with its dot |
| AdsName.EqualsSymmetric | ads_name.py:99-134 | name equality is symmetric |
| AdsName.EqualsReflexive | ads_name.py:99-134 | every name equals itself |
| AdsName.ExactNeedsIdentical | ads_name.py:106-113 | when either side is exact, equality holds exactly when surname, first and middle parts are identical |
| AdsName.MissingPartsMatchAnything | ads_name.py:137-141 | a bare surname equals every plain name with that surname |
| AdsName.NameMatchesItsInitial | ads_name.py:151-154 | a first name equals a first initial exactly when the name starts with it |
| AdsName.ExcludeMoreSpecific | ads_name.py:115-117 | with '<' on the first name (or '>' on the second), a more detailed second name is never equal |
| AdsName.ExcludeLessSpecific | ads_name.py:119-121 | with '>' on the first name (or '<' on the second), a less detailed second name is never equal |
| AdsName.ParseSurname | ads_name.py:44-50 | a plain lower-case surname parses to a name with no first or middle part |
| AdsName.ParseSurnameAndToken | ads_name.py:46-53 | "surname, token" parses to that surname with the token as first part |
| AdsName.NotTransitive | ads_name.py:137-154 | equality is not transitive: "murray, e" equals "murray", "murray" equals "murray, s.", and the first and last differ |
| AdsName.StrRoundTrip | ads_name.py:173-203 | parsing `str` of a well-formed canonical name gives the name back, with that text as its original name |
| AdsName.ParseOfParts | ads_name.py:44-58 | for text cut at its first comma, with the tail cut as `split(maxsplit=1)` cuts it: the lowered head is the last name, the first token the first part and the rest of the tail the middle part; a whitespace-only tail raises IndexError and an empty tail leaves both parts out |
| AdsName.ParseOneString | ads_name.py:33-58 | every one-string input is covered: text without a comma is the lowered last name alone, and text with one is cut so that `ParseOfParts` gives its fields |
| AdsName.ParseCommaGiven | ads_name.py:46-58 | text "head, given tail" parses with the given token as first part and the rest as middle part |
| NameAware.FirstMatch | name_aware.py:30-32 | an index found is a position of the bucket |
| NameAware.FirstMatchSpec | name_aware.py:30-32 | the index found is that of an entry whose name equals the key, and no earlier entry matches; none only when no entry matches |
| NameAware.LookupSpec | name_aware.py:26-33 | a value exactly when some entry of the key's last-name bucket equals the key, and then the value of the first such entry; none where `__getitem__` raises KeyError |
| NameAware.Touch | name_aware.py:29 | reading a last name through the defaultdict leaves a bucket under it |
| NameAware.Without | name_aware.py:54 | dropping a bucket's key keeps every other key, and distinct keys stay distinct |
| NameAware.NameAwareDict.constructor | name_aware.py:23-24 | a new dictionary has no buckets |
| NameAware.NameAwareDict.Clear | name_aware.py:98-99 | afterwards there are no buckets |
| NameAware.NameAwareDict.TouchBucket | name_aware.py:29 | the defaultdict read returns the bucket and adds an empty one for an unseen last name |
| NameAware.NameAwareDict.Get | name_aware.py:26-33 | answers `Lookup` on the old state; the only change is the defaultdict read |
| NameAware.NameAwareDict.Contains | name_aware.py:63-72 | true exactly when `Lookup` finds a value, that is when `__getitem__` would not raise |
| NameAware.NameAwareDict.Set | name_aware.py:35-44 | the new state replaces the first matching entry in place, otherwise appends to the bucket |
| NameAware.NameAwareDict.Delete | name_aware.py:46-55 | removes the first matching entry only, drops a bucket left empty, and removes nothing when no entry matches |
| NameAware.NameAwareDict.Len | name_aware.py:57-61 | the count is the number of entries over all buckets |
| NameAware.NameAwareDict.Keys | name_aware.py:80-86 | the names of all entries, bucket by bucket in insertion order |
| NameAware.NameAwareDict.ValuesList | name_aware.py:88-93 | the values of all entries, in the same order as the keys |
| NameAware.NameAwareDict.Items | name_aware.py:95-96 | one pair per entry, the i-th key with the i-th value |
| NameAware.NameAwareDict.AllEntries | name_aware.py:81-83 | the walk over the buckets yields every entry in bucket order |
| NameAware.FindFirst | name_aware.py:30-32 | the bucket scan stops at the first matching entry, as `FirstMatch` says |
| NameAware.TouchKeepsEntries | name_aware.py:29 | the defaultdict read changes no entry, so no key, value or length |
| NameAware.GetAfterSet | name_aware.py:35-44 | a get straight after `set(k, v)` answers `v` |
| NameAware.SetIsolatesLastNames | name_aware.py:39 | a set changes only the bucket of the key's last name |
| NameAware.LenAfterSet | name_aware.py:40-44 | set adds one entry exactly when no entry matched, and none otherwise |
| NameAware.LenAfterDelete | name_aware.py:50-55 | delete removes one entry exactly when some entry matched, and none otherwise |
| NameAware.KeysAlignWithValues | name_aware.py:80-96 | keys and values have equal length and the i-th key and value are the i-th entry |
| NameAware.NameAwareSet.constructor | name_aware.py:103-104 | a new set wraps an empty dictionary |
| NameAware.NameAwareSet.Add | name_aware.py:106-107 | `add(x)` is `set(x, x)` on the dictionary |
| NameAware.NameAwareSet.Contains | name_aware.py:115-116 | membership is the dictionary's |
| NameAware.NameAwareSet.Len | name_aware.py:112-113 | the length is the dictionary's |
| NameAware.NameAwareSet.Iter | name_aware.py:109-110 | iteration yields the dictionary's keys |
| NameAware.NameAwareSet.ValuesList | name_aware.py:124-125 | the values are the dictionary's |
| NameAware.AddThenContains | name_aware.py:106-116 | after `add(x)`, `x` is found |
| DocumentRecords.TrailingCut | appa/records/document_record.py:66-72 | the cut point is the length after the last non-empty string: everything from it on is empty, and the string before it is not |
| DocumentRecords.SourcePieces | appa/records/document_record.py:74-86 | the pieces joined for the sources are the first `cut` sources, none holding a comma when they are numbers |
| DocumentRecords.IntPieces | appa/records/document_record.py:86 | one `str(c)` piece per source, in order |
| DocumentRecords.CompressData | appa/records/document_record.py:58-86 | after compressing, the authors are unchanged, the affiliations and ids are prefixes of the old lists with no trailing empty string, the sources are cut at the ids' cut point and stored as comma text |
| DocumentRecords.ParseAll | appa/records/document_record.py:91 | every piece parses as an int, giving those ints; none where one `int(c)` raises |
| DocumentRecords.PadTo | appa/records/document_record.py:96-98 | padding keeps the list as its prefix and fills up to `n` with the fill value; a negative count adds nothing |
| DocumentRecords.DecompressData | appa/records/document_record.py:88-98 | after decompressing, the sources are a list, and affiliations, ids and sources are at least as long as the authors; the old affiliations and ids are prefixes of the new ones, and the parsed sources are a prefix of the new list, padded with 0; none exactly where the sources fail to parse |
| DocumentRecords.RemoveAt | appa/records/document_record.py:27-30 | `del s[i]`: one element shorter, the elements before `i` kept and the later ones shifted down |
| DocumentRecords.DocumentRecord.constructor | appa/records/document_record.py:22-24 | the fields are those given, with a timestamp of -1 replaced by the current time |
| DocumentRecords.DocumentRecord.Copy | appa/records/document_record.py:32-56 | a fresh record with the same field values, so changing it leaves the original alone |
| DocumentRecords.DocumentRecord.DeleteAuthor | appa/records/document_record.py:26-30 | entry `i` goes from authors, affiliations, ids and sources, and nothing else changes |
| DocumentRecords.DocumentRecord.Compress | appa/records/document_record.py:58-86 | the record afterwards is `CompressData` of the record before |
| DocumentRecords.DocumentRecord.Decompress | appa/records/document_record.py:88-98 | the record afterwards is `DecompressData` of the record before; where that fails nothing has changed |
| DocumentRecords.CutTrailingEmpty | appa/records/document_record.py:66-72 | the scan from the end finds the `TrailingCut` point |
| DocumentRecords.DeleteKeepsParallel | appa/records/document_record.py:26-30 | deleting one author keeps the four lists the same length |
| DocumentRecords.SourcesTextRoundTrip | appa/records/document_record.py:86-94 | reading back the comma text of a source list gives the list, with "" giving the empty list |
| DocumentRecords.PadRestores | appa/records/document_record.py:96-98 | padding a prefix back to full length restores a list whose tail is all fill values |
| DocumentRecords.CompressedSources | appa/records/document_record.py:74-94 | the stored sources read back as the sources of the kept ids |
| DocumentRecords.SourcesRestored | appa/records/document_record.py:74-98 | in a consistent record the sources after the last id are 0, so padding with 0 restores them |
| DocumentRecords.ListsRestored | appa/records/document_record.py:66-97 | padding the compressed affiliations and ids with "" restores them |
| DocumentRecords.DecompressCompress | appa/records/document_record.py:58-98 | decompressing a compressed consistent record gives the record back |
| DocumentRecords.FieldsLoseOnlyDeleted | route_ranker.py:84-86 | deleting `bibcode` (and `timestamp` unless kept) from `asdict()` loses exactly those keys: two records give the same fields iff they differ only there, and the timestamp is present iff kept |
| DocumentRecords.CompressDecompress | appa/records/document_record.py:58-98 | compressing a decompressed stored record gives the stored record back |
| DocumentRecords.TrailingCutOfPadded | appa/records/document_record.py:66-72 | padding with empty strings does not move the cut point |
| AdsBuddy.BibcodeOfYear | ads_buddy.py:285-297 | a four-digit year followed by any fifteen characters is a bibcode |
| AdsBuddy.BibcodeNeedsNumericStart | ads_buddy.py:285-297 | a character other than whitespace, an ASCII digit, a sign or an underscore among the first four rules a bibcode out (the model's `int()` accepts ASCII digits only) |
| AdsBuddy.DashToEmpty | ads_buddy.py:188 | every `-` entry becomes `''` and every other entry is kept, with the length unchanged |
| AdsBuddy.OrcidList | ads_buddy.py:185-190 | a missing ORCID list becomes all `''` of the author count; a present one is padded with `''` up to the author count, and no entry is `-` |
| AdsBuddy.ChooseOrcid | ads_buddy.py:198-209 | the chosen id is the first non-empty of publisher, user and other, with source 1, 2 or 3, and it is `''` exactly when the source is 0 |
| AdsBuddy.Choices | ads_buddy.py:195-197 | one choice per position of the shortest of the three lists, as `zip` pairs them |
| AdsBuddy.RecordOf | ads_buddy.py:211-236 | an empty title list raises; otherwise each record field is the article's field or its fixed default (no title, no keywords, no publication, zero counts), with `-` affiliations emptied |
| AdsBuddy.ArticleData | ads_buddy.py:182-236 | the record has one ORCID id and one source per author at least, and an id is `''` exactly when its source is 0 |
| AdsBuddy.ArticleDataConsistent | ads_buddy.py:182-236 | an article whose lists fit its author list yields a record that survives compression and decompression |
| AdsBuddy.ChooseOrcids | ads_buddy.py:193-209 | the loop over the zipped lists produces exactly the ids and sources of `Choices` |
| AdsBuddy.ArticleToRecord | ads_buddy.py:182-236 | a fresh record holding `ArticleData` of the article, or none where that raises |
| AdsBuddy.KeepGoodLength | ads_buddy.py:258-259 | filtering parallel lists by one mask keeps them the same length |
| AdsBuddy.KeepGoodAligned | ads_buddy.py:258-259 | entry `j` of two lists filtered by one mask comes from one and the same unmarked position |
| AdsBuddy.GoodNamesParse | ads_buddy.py:244-256 | every surviving author parses, is no placeholder, and the returned name is its parse |
| AdsBuddy.KeepGoodNoneMarked | ads_buddy.py:258-259 | with nothing marked, nothing is removed |
| AdsBuddy.Classify | ads_buddy.py:245-256 | an entry is dropped exactly when it fails to parse or is `et al` or `anonymous`, and a kept entry comes with its parse |
| AdsBuddy.FindBadAuthors | ads_buddy.py:242-256 | the first pass lists exactly the bad positions, ascending, and the parses of the others in order |
| AdsBuddy.RemoveMarked | ads_buddy.py:258-259 | deleting the listed positions from the last to the first removes exactly the marked entries from all four per-author lists, entries of a list beyond the last author staying in place |
| AdsBuddy.FilterInvalidAuthors | ads_buddy.py:238-261 | the record loses exactly its bad authors with their affiliations and ORCID entries (lists longer than the author list keep their extra entries), and the result is the names of the kept authors in order |
| AdsBuddy.EnqueueSpec | ads_buddy.py:263-268 | the queue only grows at its end, never holds one name twice, and afterwards holds the old names and the added ones |
| AdsBuddy.EnqueueIdempotent | ads_buddy.py:263-268 | adding the same authors a second time changes nothing |
| AdsBuddy.EnqueueAllPresent | ads_buddy.py:264-266 | authors already queued leave the queue as it is |
| AdsBuddy.PrefetchTake | ads_buddy.py:272-276 | the number taken is `2000 // 300 - 1 = 5` or the queue length, whichever is smaller |
| AdsBuddy.Buddy.constructor | ads_buddy.py:34-36 | an empty queue and an empty set |
| AdsBuddy.Buddy.AddAuthors | ads_buddy.py:263-268 | the queue becomes `Enqueue` of the old queue, and the set still equals the queue's contents |
| AdsBuddy.Buddy.SelectAuthors | ads_buddy.py:270-282 | the first `PrefetchTake` names are popped and returned in order, and the set still equals the queue's contents |
| AdsBuddy.PopFront | ads_buddy.py:279-280 | popping the head removes exactly the head's name from the set of queued names |
| AdsBuddy.DedupCanonical | ads_buddy.py:135-139 | `sorted(set(documents))` is strictly sorted, keeps every bibcode, and is unchanged by a second de-duplication |
| AdsBuddy.DedupDocuments | ads_buddy.py:135-139 | every author record's bibcodes become `sorted(set(...))` of the old ones, and the names are unchanged |
| AdsBuddy.IsBibcode | ads_buddy.py:285-297 | a bibcode is nineteen characters long, and one of its first four, which `int()` must accept, is a digit |
| AdsBuddy.KeepGood | ads_buddy.py:258-259 | deleting the marked authors leaves no more entries than before, each one an unmarked entry of the original |
| AdsBuddy.Enqueue | ads_buddy.py:263-268 | the old queue is kept as it was at the front, and at most one name per author is appended |
| AppaAdsBuddy.OrcidBody | appa/ads_buddy.py:329-336 | the text `is_orcid_id` goes on to check is the stripped value, its dashes removed when it is 19 characters dashed at 4, 9 and 14; anything left that is not 16 characters long answers False |
| AppaAdsBuddy.DropCheckX | appa/ads_buddy.py:338-339 | only a final `X` or `x` is dropped, and the rest is a prefix of the value |
| AppaAdsBuddy.NormalizeOrcidId | appa/ads_buddy.py:345-351 | a stripped value of 16 characters becomes its 4-4-4-4 dashed form; any other is returned stripped |
| AppaAdsBuddy.UndashDashed | appa/ads_buddy.py:335-350 | removing the dashes of the dashed form gives back the sixteen characters |
| AppaAdsBuddy.ValidBodyShape | appa/ads_buddy.py:326-342 | the body of a valid id holds no dash and neither starts nor ends with white space |
| AppaAdsBuddy.NormalizeKeepsValid | appa/ads_buddy.py:326-351 | the dashed form of a valid id is 19 characters, has the same body and is itself valid |
| AppaAdsBuddy.NormalizeIdempotent | appa/ads_buddy.py:345-351 | normalising twice is normalising once |
| AppaAdsBuddy.IntendedPassesAsWritten | appa/ads_buddy.py:326-342 | every id of digits with an optional check character passes the check as written |
| AppaAdsBuddy.SignedIdAccepted | appa/ads_buddy.py:335-341 | a minus sign followed by fifteen digits passes the check as written, is no ORCID id, and its stored dashed form fails the same check |
| AppaAdsBuddy.SignedNormalRefused | appa/ads_buddy.py:345-351 | the dashed form of a signed value loses characters with its dashes, so the check refuses it |
| AppaAdsBuddy.ChoiceValid | appa/ads_buddy.py:235-246 | the source names the first valid candidate (1, 2 or 3), 0 when none is valid; the id is `''` exactly when the source is 0, and otherwise it is a valid id in normalised form |
| AppaAdsBuddy.Zip3 | appa/ads_buddy.py:232-234 | one triple per position of the shortest of the three lists |
| AppaAdsBuddy.ValidChoices | appa/ads_buddy.py:232-246 | one validating choice per position of the zipped lists |
| AppaAdsBuddy.StoredIdsNormalised | appa/ads_buddy.py:235-246 | every id the built record stores is `''` or a valid id in normalised form |
| AppaAdsBuddy.ArticleDataConsistent | appa/ads_buddy.py:219-273 | an article whose lists fit its author list yields a record whose ids are `''` exactly where their source is 0 |
| AppaAdsBuddy.ChooseValidOrcids | appa/ads_buddy.py:230-246 | the loop over the zipped lists produces exactly the ids and sources of `ValidChoices` |
| AppaAdsBuddy.ChooseEach | appa/ads_buddy.py:230-246 | for any chooser, the loop appends one id and one source per zipped position, in order |
| AppaAdsBuddy.ArticleToRecord | appa/ads_buddy.py:219-295 | a fresh record holding the built record, its ORCID ids and sources taken from the choosing loop, with its bad authors removed, or none where an empty title list raises |
| AppaAdsBuddy.FilteredConsistent | appa/ads_buddy.py:275-293 | removing the bad authors keeps a consistent record consistent |
| AppaAdsBuddy.FirstIndexOf | appa/ads_buddy.py:68-72 | `list.index`: the first position holding the value, and none exactly when the value is absent |
| AppaAdsBuddy.AuthorFor | appa/ads_buddy.py:68-74 | a document yields an author for the id exactly when its ids hold the id |
| AppaAdsBuddy.OrcidHitsMembers | appa/ads_buddy.py:67-73 | a bibcode is kept exactly when some document with that bibcode lists the id |
| AppaAdsBuddy.SeenNamesMembers | appa/ads_buddy.py:66-74 | the seen names hold no duplicate and are exactly the authors found at the id's first position |
| AppaAdsBuddy.CollectOrcidHits | appa/ads_buddy.py:66-74 | the loop over the documents yields exactly `OrcidHits` and `SeenNames` |
| AppaAdsBuddy.TupleLess | appa/ads_buddy.py:79-80 | comparing two `(level_of_detail, len(full_name), name)` tuples raises exactly when both numbers tie and the names are not equal |
| AppaAdsBuddy.NameTieRaises | appa/ads_buddy.py:79-80 | two names with one surname and different first names of one length tie on both numbers, so sorting them raises |
| AppaAdsBuddy.ParsedTie | appa/ads_buddy.py:78-80 | such names come out of parsing their own text, so the tie arises from the parsed seen names |
| AppaAdsBuddy.SmithTie | appa/ads_buddy.py:78-80 | `smith, john` and `smith, jane` are such names |
| AppaAdsBuddy.BestBy | appa/ads_buddy.py:76-81 | the chosen entry is one of the list and no entry has a larger `(level_of_detail, length)` |
| AppaAdsBuddy.AllOk | appa/ads_buddy.py:78 | the list comprehension gives every result when all calls succeed, and otherwise an error one of them raised |
| AppaAdsBuddy.OrcidRecordNameBest | appa/ads_buddy.py:76-81 | the record's name is the parse of a seen name, and no seen name is more detailed or, equally detailed, longer |
| AppaAdsBuddy.ParseAllNames | appa/ads_buddy.py:78 | the parses of all seen names, or the first parse error |
| AppaAdsBuddy.GetPapersForOrcidId | appa/ads_buddy.py:57-82 | a fresh author record holding the bibcodes of the documents that list the normalised id and the most detailed seen name, or the parse error that stops it |
| AppaAdsBuddy.IsOrcidIdAsWritten | appa/ads_buddy.py:326-342 | an accepted id has the 16- or dashed 19-character form, and its first fifteen characters are ones the modelled `int()` accepts: digits, whitespace, signs or underscores |
| AppaAdsBuddy.IsOrcidId | appa/ads_buddy.py:326-342 | an id is accepted exactly when, after stripping and removing the dashes of the 4-4-4-4 form, it has sixteen characters, fifteen digits followed by a digit, `X` or `x` |
| AppaAdsBuddy.ChooseValidOrcid | appa/ads_buddy.py:235-246 | the source is one of 0 to 3, and 0 exactly when none of the three candidate ids is valid |
| AppaAdsBuddy.Rank | appa/ads_buddy.py:79 | the level of detail lies between 100 and 133 and is at least 120 exactly when the first name is given; the length counted is at least that of the last name |
| AppaAdsBuddy.OrcidRecordName | appa/ads_buddy.py:64-81 | an id that does not parse fails the record; a failure comes only from the id or from a seen name that does not parse |
| AppaAdsBuddy.ParseResultsErr | appa/ads_buddy.py:78 | when parsing the seen names fails, one of those names does not parse |
| CacheBuddy.ValidKeyIsSafe | cache_buddy.py:48-55 | a valid key has 1 to 255 characters, is not `.`, `..` or `,`, holds no slash or backslash, and never holds both `<` and `>` |
| CacheBuddy.KeyValidityByChars | cache_buddy.py:53-55 | once the reserved names, the length and the `<`/`>` pair are ruled out, a key is valid exactly when every character is printable and not reserved |
| CacheBuddy.ReservedCharInvalid | cache_buddy.py:53-55 | a key holding a reserved punctuation mark anywhere is invalid |
| CacheBuddy.StaleKeys | cache_buddy.py:31-33 | the keys `refresh` collects are keys of the map |
| CacheBuddy.DropStale | cache_buddy.py:31-43 | exactly the entries more than MaximumAgeAuto seconds old are gone, and the others keep their records |
| CacheBuddy.Prepared | cache_buddy.py:139-159 | an in-memory record is returned unless it is more than a month old; stored data is decoded and returned unless it is too old or of another version, which is a CacheMiss for its key |
| CacheBuddy.PreparedDocument | cache_buddy.py:139-144 | absent data, and only absent data, gives None |
| CacheBuddy.PreparedAuthor | cache_buddy.py:262-274 | absent data, and only absent data, makes it raise |
| CacheBuddy.PrepareIn | cache_buddy.py:139-159 | the outcome is `Prepared`; a record read from the store is put in memory, and an unusable one is then deleted from memory, and from the store when that delete succeeds |
| CacheBuddy.DocumentStoreRoundTrip | cache_buddy.py:58-68 | a consistent document stored by `cache_document` and loaded again within a month comes back unchanged |
| CacheBuddy.OldVersionMisses | cache_buddy.py:155-158 | a document stored in another format version is always a CacheMiss |
| CacheBuddy.ParsedNameReparses | cache_buddy.py:170 | a name parsed from text parses back from its original text to the same name |
| CacheBuddy.AuthorStoreRoundTrip | cache_buddy.py:162-173 | an author record whose name was parsed from text, stored and loaded again within a month, comes back unchanged |
| CacheBuddy.Cache.constructor | cache_buddy.py:25-26 | the in-memory maps start empty, and so does the modelled store |
| CacheBuddy.Cache.Refresh | cache_buddy.py:29-43 | the in-memory maps keep exactly the records at most MaximumAgeAuto seconds old, unchanged, and the store is untouched |
| CacheBuddy.Cache.CacheDocument | cache_buddy.py:58-68 | an invalid bibcode raises and changes nothing; otherwise the document is put in memory under its bibcode and stored compressed with its version |
| CacheBuddy.Cache.CacheAuthor | cache_buddy.py:162-173 | an invalid `str(name)` raises and changes nothing; otherwise the record is put in memory under `str(name)` and stored with its name as the original text |
| CacheBuddy.Cache.DeleteDocument | cache_buddy.py:77-85 | the in-memory entry always goes, the stored one only when the store's delete succeeds, and nothing else changes |
| CacheBuddy.Cache.DeleteAuthor | cache_buddy.py:182-191 | the in-memory entry always goes, the stored one only when the store's delete succeeds, and nothing else changes |
| CacheBuddy.Cache.PrepareLoadedDocument | cache_buddy.py:139-159 | the outcome is `PreparedDocument`, with the memory and store updates of `PrepareIn` on the document maps only |
| CacheBuddy.Cache.PrepareLoadedAuthor | cache_buddy.py:262-281 | the outcome is `PreparedAuthor`, with the memory and store updates of `PrepareIn` on the author maps only |
| CacheBuddy.Cache.AuthorsAreInCache | cache_buddy.py:200-219 | one answer per name in input order, True exactly when the name is in memory or in the store; only names not in memory are asked of the store |
| CacheBuddy.Cache.StoreHasAuthors | cache_buddy.py:216 | the store answers one boolean per key, in order, saying whether it holds the key |
| PathNodes.PathNode.constructor | path_node.py:11-24 | the name and distances are those given, both distances defaulting to `sys.maxsize`, and every neighbour set, link map and bibcode set starts empty |
| PathNodes.PathNode.SetDist | path_node.py:32-36 | only the selected distance changes |
| PathNodes.PathNode.AddNeighbor | path_finder.py:127 | the neighbour joins the selected side's set, and nothing else changes |
| PathNodes.PathNode.AddLinks | path_finder.py:151-152 | the bibcodes are added to the selected side's entry for the neighbour, which the defaultdict creates empty when missing; nothing else changes |
| PathNodes.PathNode.ReadLinks | path_finder.py:207-208 | reading an entry through the defaultdict returns it, or an empty set that it then stores |
| PathNodes.PathNode.SetLinks | path_finder.py:207-216 | only the selected side's entry for the neighbour is replaced |
| PathNodes.PathNode.RemoveNeighbor | path_finder.py:224-237 | `set.remove`: reports whether the neighbour was there, and afterwards it is not |
| PathNodes.PathNode.PopLinks | path_finder.py:225-238 | `dict.pop`: reports whether the entry was there, and afterwards it is not |
| PathNodes.PathNode.Detach | path_finder.py:224-238 | removing a neighbour and then popping its links succeeds exactly when both were there, and never adds anything |
| PathNodes.PathNode.Reach | path_finder.py:139-146 | a node more than one step beyond the neighbour takes the distance one past it and records it as a neighbour; otherwise nothing changes |
| PathNodes.SelectorsPickSide | path_node.py:29-42 | `dist`, `neighbors` and `links` pick the toward-src field for True and the toward-dest one for False |
| PathFinders.Rejected | path_finder.py:34-40 | every value collected as a name is the stripped form of some exclusion that is not a bibcode |
| PathFinders.SplitCovers | path_finder.py:34-40 | each stripped exclusion lands on the side its test picks |
| PathFinders.Split | path_finder.py:34-40 | the loop over the exclusions fills the bibcode set and the name list exactly as `Accepted` and `Rejected` say |
| PathFinders.ExclusionsPartition | path_finder.py:34-40 | a stripped exclusion that `is_bibcode` accepts is an excluded bibcode, and any other is an excluded name |
| PathFinders.ParseEach | path_finder.py:40 | every exclusion name parses, giving those names in order, or the first that does not parse is reported |
| PathFinders.UsableOf | path_finder.py:110-112 | a coauthor's usable bibcodes are exactly its bibcodes that are in `ok_bibcodes` |
| PathFinders.Gather | path_finder.py:101-106 | `ok_bibcodes` holds exactly the bibcodes written under a usable alias that are not excluded |
| PathFinders.PathFinder.constructor | path_finder.py:32-55 | the source sits at distance 0 from the source and in the current source frontier, the destination at distance 0 from the destination and in the next destination frontier; both are entered in `nodes`, with no neighbours and no connection yet |
| PathFinders.PathFinder.ConsiderCoauthor | path_finder.py:116-152 | a coauthor in the excluded names changes nothing; one no name in `nodes` matches gets a fresh node one step beyond the expanded node, with that node as its only neighbour and the bibcodes as its links toward it, and is appended to the expanding side's next frontier; a known one keeps or shortens its distance to one step beyond, gains the bibcodes in its links and joins the connections exactly when `node_connects` holds; all other nodes are unchanged |
| PathFinders.PathFinder.AddCoauthor | path_finder.py:121-129 | a new coauthor gets a fresh node one step further out than the expanded node on the expanding side, with that node as its only neighbour and the bibcodes as its links, and is appended to that side's next frontier |
| PathFinders.PathFinder.Enter | path_finder.py:125 | the node is entered in `nodes` under its name, and nothing else changes |
| PathFinders.PathFinder.ReachKnown | path_finder.py:131-152 | a known coauthor further than one step takes the shorter distance and the expanded node as a neighbour, a nearer one keeps both; it is recorded as connecting exactly when `node_connects` holds, and the bibcodes join its links |
| PathFinders.PathFinder.ExpandFrom | path_finder.py:108-152 | the pass fails, with InvalidName, exactly when some coauthor with a usable bibcode does not parse; on success every such coauthor not excluded has a node at most one step beyond the expanded node whose links toward it hold all its usable bibcodes; the graph, the connections and the next frontiers only grow, and a node brought closer is one step beyond an expanded distance |
| PathFinders.PathFinder.UsableBibcodes | path_finder.py:98-106 | `ok_bibcodes` is `Gather` over the aliases that parse to names not excluded; it fails exactly when an alias does not parse |
| PathFinders.PathFinder.ExpandAuthor | path_finder.py:86-152 | fails with KeyError exactly when no node matches the author, and otherwise only with InvalidName; `from` is the author's node and `d` its distance before; on success every coauthor of the author's record that has a bibcode in `ok_bibcodes` and is not excluded has a node at most `d + 1` out whose links toward `from` hold those bibcodes; nodes added since are one step beyond an expanded distance and in the next frontier |
| PathFinders.PathFinder.ExpandFrontier | path_finder.py:79-152 | expanding the frontier keeps the side, the iteration count and both current frontiers, and only grows the graph, the connections and the next frontiers; every new node is one step beyond the distance of an expanded author and its name is in the expanding side's next frontier; an old node keeps its distance or is brought closer to one step beyond an expanded distance; on success `froms`/`ds` give each expanded author's node and a distance no greater than it had; errors are KeyError or InvalidName only |
| PathFinders.PathFinder.Include | path_finder.py:121-152 | for a coauthor not excluded: the new-node outcome when no name in `nodes` matches, the known-node outcome on the node found otherwise, the expanding side, the frontiers and the expanded node's distance kept |
| PathFinders.PathFinder.LookUp | path_finder.py:121-133 | the node `nodes` holds for the name, or none, and the dict itself unchanged but for its cache of the last name asked |
| PathFinders.PathFinder.ReachFound | path_finder.py:131-152 | the known node found for the coauthor is reached again: the known-node outcome, other nodes unchanged |
| PathFinders.PathFinder.Queue | path_finder.py:128 | the coauthor is appended to the expanding side's next frontier and the other side's is kept |
| PathFinders.PathFinder.Find | path_finder.py:87 | `self.nodes[expand_author]`: the node for the name, or none, with the search's state kept |
| PathFinders.PathFinder.ExpandCoauthor | path_finder.py:108-152 | one coauthor of the loop: it fails exactly when it has a usable bibcode and its name does not parse, with InvalidName of that name; otherwise the loop invariant holds with the coauthor done, and it joins the reached names when it is considered |
| PathFinders.PathFinder.ExpandRecord | path_finder.py:98-152 | with the record fetched: a failure is InvalidName; on success every coauthor with a bibcode in `ok_bibcodes` and not excluded has a node at most one step beyond the expanded node whose links toward it hold those bibcodes |
| PathFinders.PathFinder.ExpandAll | path_finder.py:85-152 | the loop over the frontier: on success each author was expanded, from its own node at a distance no greater than it had; errors are KeyError or InvalidName only |
| PathFinders.PathFinder.ExpandNth | path_finder.py:85-152 | one turn of the loop over the frontier, extending the record of expanded nodes and their distances by the one author |
| PathFinders.PathFinder.SteppedAt | path_finder.py:126-145 | a node that existed at the start of the pass is no further out now than it was then |
| PathFinders.PathFinder.SteppedNodes | path_finder.py:124-145 | since the start of the pass, old nodes are kept, each new node is one step beyond an expanded distance with its name in the next frontier, and each old node kept its distance or was brought closer |
| PathFinders.NewKeeps | path_finder.py:124-128 | adding a fresh node for a coauthor keeps every name already reached reaching, adds the new one, and keeps the distances stepped with the name appended to the next frontier |
| PathFinders.KnownKeeps | path_finder.py:139-152 | reaching a known node again keeps every name already reached reaching, adds the coauthor, and keeps the distances stepped |
| PathFinders.StartedMore | path_finder.py:85-88 | recording one more expanded author's node and distance keeps the record of expanded nodes consistent |
| PathFinders.PathFinder.NextSide | path_finder.py:162-178 | the search raises `no_authors_to_expand` exactly when either next frontier is empty; otherwise it expands the source side when its next frontier is strictly smaller, the destination side otherwise, and empties the one chosen |
| PathFinders.PathFinder.ProduceFinalGraph | path_finder.py:192-238 | the walk visits every connecting node; when it completes, the graph is pruned from the source, and every visited node's links are still mirrored with the same bibcodes on both ends, with the visited set still closed under neighbours |
| PathFinders.PathFinder.Search | path_finder.py:76-179 | the loop stops successfully only after a pass that found a connecting node, with at least one iteration counted, and when no connection existed at the start none existed before that last pass (`before`); `no_authors_to_expand` is raised only with no connection found |
| PathFinders.PathFinder.FindPath | path_finder.py:57-181 | `src_empty` when the source has no usable document, then `dest_empty` when the destination has none; success means connecting nodes were found and the graph is pruned |
| PathFinders.NewNodes | path_finder.py:49-53 | the two end nodes, fresh, at distance 0 from their own end and `sys.maxsize` from the other, entered in a new names dict |
| PathFinders.NewNeighbor | path_finder.py:124-127 | a fresh node one step further out than the expanded node, with it as its only neighbour on that side and the bibcodes as its links |
| PathFinders.AddNames | path_finder.py:35-40 | each exclusion name is added to the excluded-name set, in order |
| PathFinders.NewPathFinder | path_finder.py:28-55 | the ends parse or the constructor fails; the excluded bibcodes are the stripped bibcode exclusions and the excluded names are the parses of the others |
| FinalGraph.LinkBackNbrs | path_finder.py:201-216 | linking a neighbour back adds exactly one neighbour, the node to its neighbour's other side |
| FinalGraph.LinkBackMirrors | path_finder.py:201-216 | afterwards the link between the two is mirrored: each is the other's neighbour on the opposite side, with the same bibcodes |
| FinalGraph.LinkBackKeepsEdge | path_finder.py:201-216 | a link that was mirrored stays mirrored |
| FinalGraph.LinkBackKeepsMirrored | path_finder.py:201-216 | a node all of whose links were mirrored keeps them mirrored |
| FinalGraph.ClosedSnap | path_node.py:18-21 | the graph is closed exactly when its snapshot is |
| FinalGraph.LinkBackKeepsClosed | path_finder.py:201-216 | linking back keeps every neighbour inside the graph and no node its own neighbour |
| FinalGraph.LinkBack | path_finder.py:204-216 | one turn of step one's inner loops changes the nodes as `LinkBackV` says |
| FinalGraph.WalkSide | path_finder.py:201-216 | one inner loop of step one links back every neighbour of the node on that side and pushes the unvisited ones |
| FinalGraph.MakeBidirectional | path_finder.py:193-216 | step one visits every connecting node, and every visited node then has all its links mirrored, with the same bibcodes both ways |
| FinalGraph.VisitTop | path_finder.py:196-216 | one turn of step one's outer loop keeps its invariant and shrinks the work left |
| FinalGraph.ShrunkClosed | path_finder.py:219-238 | removing links keeps the graph closed |
| FinalGraph.UnlinkNbrs | path_finder.py:222-238 | cutting a link removes exactly the neighbour from the node's side and the node from the neighbour's other side, and keeps every distance |
| FinalGraph.UnlinkLinks | path_finder.py:222-238 | cutting a link removes the bibcode map entry for exactly the neighbour on the node's side and the node on the neighbour's other side, and no other entry |
| FinalGraph.UnlinkKeepsEdge | path_finder.py:222-238 | an edge that survives a cut from a mirrored node is still mirrored with the same bibcodes |
| FinalGraph.UnlinkKeepsMirrored | path_finder.py:222-238 | cutting a link in both directions keeps every mirrored node mirrored |
| FinalGraph.UnlinkKeepsAllMirrored | path_finder.py:222-238 | cutting a link in both directions keeps a whole set of mirrored nodes mirrored |
| FinalGraph.ShrunkKeepsClosure | path_finder.py:218-238 | a node set closed under neighbours stays closed while links are only removed |
| FinalGraph.DetachFrom | path_finder.py:224-238 | one end of a cut succeeds exactly when both the neighbour and its links are there, and only removes |
| FinalGraph.Unlink | path_finder.py:222-238 | a cut in the source's order succeeds exactly when all four removals find their entries, and only removes |
| FinalGraph.PruneSide | path_finder.py:222-238 | each neighbour not one step further is cut, each other one is pushed, the node's other side is kept, and a successful side leaves every mirrored node of `keep` mirrored |
| FinalGraph.PruneTop | path_finder.py:220-238 | one turn of step two's outer loop only removes, keeps its invariant, and on success keeps every node of `keep` mirrored |
| FinalGraph.Prune | path_finder.py:218-238 | step two only removes links, and when it completes every node reached from the source is settled and every node of `keep` is still mirrored |
| FinalGraph.PrunedPaths | path_finder.py:218-238 | after pruning, every walk toward dest from the source goes up by exactly one distance from the source at each step |
| FinalGraph.SetToSeq | path_finder.py:194 | `list(a_set)` holds each element exactly once |
| RouteGraph.Labels | route_ranker.py:114 | one bare name per node of the walk, in order |
| RouteGraph.PathTail | route_ranker.py:112-119 | the tail of a walk to a leaf is a walk to a leaf from the first node's neighbour |
| RouteGraph.PathCons | route_ranker.py:112-119 | a node followed by a walk from one of its neighbours is a walk, and its names are the node's name then the walk's |
| RouteGraph.NextLevelGrows | route_ranker.py:112-119 | the chain builder only appends to the list of chains |
| RouteGraph.NextLevelSound | route_ranker.py:112-119 | every chain the call appends is the starter followed by the bare names of a walk from the node to a leaf |
| RouteGraph.NextLevelComplete | route_ranker.py:112-119 | every walk from the node to a leaf gives a chain |
| RouteGraph.StepIntoChild | route_ranker.py:118-119 | a walk to a leaf of two or more nodes goes through one of the first node's neighbours |
| RouteGraph.AuthorChainsArePaths | route_ranker.py:105-119 | the chains are exactly the bare-name sequences of the walks from the source to a leaf along links toward dest |
| RouteGraph.EdgesComplete | route_ranker.py:59-66 | the recursion meets every link on a walk from the node |
| RouteGraph.EdgesSound | route_ranker.py:59-66 | every link the recursion meets leads from a node to one of its neighbours toward dest |
| RouteGraph.FoldAppend | route_ranker.py:59-66 | storing two lists of links in turn is storing their concatenation |
| RouteGraph.StoreIsFold | route_ranker.py:45-68 | the recursion stores exactly the links it meets, in that order |
| RouteGraph.FoldKeepsKey | route_ranker.py:63-65 | a pair of names, once stored, stays stored |
| RouteGraph.FoldKeepsValue | route_ranker.py:63-65 | with distinct bare names, a stored link's bibcodes are never overwritten by another link |
| RouteGraph.FoldStores | route_ranker.py:59-66 | every link folded over is stored, its bibcodes among those collected |
| RouteGraph.FoldKeepsBibcodes | route_ranker.py:61 | the set of all bibcodes only grows |
| RouteGraph.PutKeys | route_ranker.py:63-65 | writing `pairings[a][b]` adds exactly the pair written |
| RouteGraph.FoldOnly | route_ranker.py:59-66 | nothing but the links folded over is stored |
| RouteGraph.StoreReachable | route_ranker.py:45-68 | from empty pairings, every link on a walk from the source is stored with its bibcodes (sorted in the ranker, as iterated in the jsonifyer), and all of them are collected |
| RouteGraph.StoreOnlyLinks | route_jsonifyer.py:77-85 | every pair stored is the bare names of a link reachable from the source |
| RouteGraph.PrunedLevels | path_finder.py:219-238 | a view of the pruned graph is leveled: along every link toward dest the distance from the source grows by one, so the recursions over it end |
| RouteRanker.Expand | route_ranker.py:290-295 | an abbreviation is written out as "institute" or "university"; any other word is left as it is |
| RouteRanker.ProcessWords | route_ranker.py:313-320 | the word loop keeps exactly the words of the chunk's word pass: removed words dropped, abbreviations expanded, empty words dropped |
| RouteRanker.ProcessAffil | route_ranker.py:298-323 | the chunk loop returns exactly the processed chunks of the affiliation |
| RouteRanker.KeepWordsGood | route_ranker.py:314-320 | no word kept is empty, a removed word or an unexpanded abbreviation |
| RouteRanker.KeepChunksGood | route_ranker.py:311-323 | every processed chunk is one or more kept words joined by single spaces |
| RouteRanker.AffilChunks | route_ranker.py:298-323 | no processed chunk is empty, each is made of kept words, and none holds an upper-case letter, a removed or separator character, a comma or an unprintable character |
| RouteRanker.FindIndices | route_ranker.py:89-100 | the author loop computes the index pair of the scan, including its early stop once both are found |
| RouteRanker.ScanFirst | route_ranker.py:91-100 | from any position, each index found is the first later position whose name is not excluded and equals that author, and none is found when there is no such position; the scan fails only on an author string that does not parse |
| RouteRanker.FirstIndicesFound | route_ranker.py:89-100 | each index of a paper is the first position holding a non-excluded name equal to that author, or none when there is none; the scan fails exactly when an author string fails to parse |
| RouteRanker.FillShape | route_ranker.py:79-101 | a filled link has one triple per bibcode, in order, each with the index pair of that paper's own author list |
| RouteRanker.LoadDoc | route_ranker.py:80-87 | a paper's record comes from `doc_data` when present, otherwise from the repository, is stripped of its `bibcode` and `timestamp` and is then stored; nothing else is added |
| RouteRanker.FillLink | route_ranker.py:79-102 | the bibcode loop fills the link as specified, loads each missing paper once, stores it without its `bibcode` and `timestamp`, and loads only papers of the link |
| RouteRanker.FillEntry | route_ranker.py:75-102 | one link succeeds exactly when the partner parses and its bibcodes fill |
| RouteRanker.FillRow | route_ranker.py:73-102 | one row succeeds with every link filled, or fails exactly when a name or a paper's author fails to parse |
| RouteRanker.InsertDocumentData | route_ranker.py:71-102 | success exactly when no row fails; then every link is replaced by its triples; the loaded papers are exactly those referenced, each the repository's record without its `bibcode` and `timestamp` |
| RouteRanker.At | route_ranker.py:224-225 | indexing succeeds exactly when the index is present and in range, with the element; otherwise a TypeError for `None` or an IndexError |
| RouteRanker.SourceAt | route_ranker.py:228-229 | an ORCID source reads only from the decompressed list, at an index in range |
| RouteRanker.LinkInvalid | route_ranker.py:220-267 | a link scored without error is invalid exactly when both ORCID ids are known and differ, or, when one is unknown, the two printed names are not equal; a valid link gets its weight |
| RouteRanker.LinkRaises | route_ranker.py:220-261 | scoring a link raises exactly when an index is missing or out of range, an ORCID source is unreadable where the ids agree, or a printed name fails to parse where the ids do not decide |
| RouteRanker.ScoredAboveStrict | route_ranker.py:199 | the (score, papers) order used by `sort(reverse=True)` is a strict total order |
| RouteRanker.RowLtStrict | route_ranker.py:146-147 | the (-score, titles, papers) order is a strict total order |
| RouteRanker.RankedLtStrict | route_ranker.py:158 | the (-score, names, papers) order of the ranking is a strict total order |
| RouteRanker.ChainLinks | route_ranker.py:164-171 | a chain of n names gives n-1 lists of triples |
| RouteRanker.ChainLinksAt | route_ranker.py:164-171 | the lists are the filled links of consecutive names, in order, and a missing entry (a KeyError) is the only failure |
| RouteRanker.BuildLinks | route_ranker.py:164-171 | the loop gathers exactly the chain's lists of triples |
| RouteRanker.ProductMembers | route_ranker.py:182 | a choice is in `itertools.product` exactly when it takes one element from each list, in order |
| RouteRanker.ChoiceValid | route_ranker.py:186-192 | a choice scored without error keeps its score exactly when every one of its links is valid |
| RouteRanker.ScoreChoice | route_ranker.py:186-195 | the link loop computes the choice's score, stopping at the first invalid link |
| RouteRanker.SurvivorsRaise | route_ranker.py:181-195 | scoring the choices raises exactly when scoring one of them raises |
| RouteRanker.SurvivorsExact | route_ranker.py:181-195 | the surviving items are exactly the valid choices, each with its score |
| RouteRanker.ChainScores | route_ranker.py:197-201 | scores are returned only when at least one choice survives |
| RouteRanker.ScoreChain | route_ranker.py:162-201 | the loops of `_score_author_chain` compute its specification |
| RouteRanker.ChainScoresMeaning | route_ranker.py:162-201 | `None` exactly when no choice is valid; otherwise the valid choices with their scores, best score first |
| RouteRanker.NormStep | route_ranker.py:334-345 | one turn adds two names on the first link and one afterwards |
| RouteRanker.Norm | route_ranker.py:326-346 | the new chain has one name more than the top choice has links |
| RouteRanker.NormNames | route_ranker.py:326-346 | the new chain starts with the first author of the first paper, ends with the second author of the last, and each interior name is the less detailed of its two printed versions, the earlier one on a tie |
| RouteRanker.NormalizeStep | route_ranker.py:335-345 | the loop body computes one turn of the specification |
| RouteRanker.Normalize | route_ranker.py:326-346 | the loop computes the normalised chain of the top choice |
| RouteRanker.Titles | route_ranker.py:136-138 | one title per chosen paper, in order |
| RouteRanker.RowsOf | route_ranker.py:146 | one row per scored choice, with its score, its titles and its papers |
| RouteRanker.RankedBest | route_ranker.py:146-149 | a chain's entry carries its normalised names, all its valid choices, and the best of their scores |
| RouteRanker.EntryMeaning | route_ranker.py:124-149 | a chain makes an entry exactly when it scores without error and has a valid choice |
| RouteRanker.RankNext | route_ranker.py:124-149 | the loop body computes one chain's entry |
| RouteRanker.RankChains | route_ranker.py:122-159 | the loop of `_rank_author_chains` computes its specification |
| RouteRanker.RankMeaning | route_ranker.py:122-159 | `None` exactly when no chain makes an entry; otherwise the entries of the chains, one per valid chain, best score first and then by names |
| RouteRanker.ProcessPathfinder | route_ranker.py:13-34 | a bad name fails the run; otherwise every link is filled, every referenced paper is loaded into `doc_data` without its `bibcode` and `timestamp`, and the result is the ranking of the chains, or AllPathsInvalid when none survives |
| RouteRanker.Affil | route_ranker.py:298-323 | no more chunks than the lowered affiliation has, each one made of kept words |
| RouteRanker.Fill | route_ranker.py:79-101 | a filled link has exactly one triple per bibcode, in the same order |
| RouteRanker.LinkScore | route_ranker.py:220-267 | a link scores without error only when both index triples hold the shared author, and a valid link's score is the weight of those two papers at those positions |
| RouteRanker.Ranking | route_ranker.py:122-157 | at most one entry per chain |
| RouteRanker.Rank | route_ranker.py:122-159 | a ranking returned is not empty, has at most one entry per chain, and is sorted by score, then names, then papers |
| RouteJsonifyer.BuildDict | route_jsonifyer.py:66-74 | the node's dict holds its bare name and one subtree per toward-destination neighbour |
| RouteJsonifyer.Subtrees | route_jsonifyer.py:72-73 | the loop adds one subtree per remaining neighbour |
| RouteJsonifyer.Prefixed | route_jsonifyer.py:66-74 | every path of the list gets the same prefix, in order |
| RouteJsonifyer.PathsOne | route_jsonifyer.py:66-74 | a tree's root-to-leaf paths are its name alone for a leaf, otherwise its name in front of each subtree's paths |
| RouteJsonifyer.NextLevelTree | route_jsonifyer.py:66-74 | the ranker's chain builder from a node appends exactly the paths of that node's tree, behind the starter |
| RouteJsonifyer.TreeIsChains | route_jsonifyer.py:33-34 | the root-to-leaf name paths of `author_graph` are exactly the ranker's author chains, in the same order |
| RouteJsonifyer.IndicesMeaning | route_jsonifyer.py:101-107 | the author loop fails exactly when an author string does not parse; otherwise each index is the first position equal to that author, or none |
| RouteJsonifyer.FindIndices | route_jsonifyer.py:101-107 | the loop computes the index pair without stopping early |
| RouteJsonifyer.LinkShape | route_jsonifyer.py:96-108 | a filled link has one triple per bibcode, in order, each with the index pair of that paper's authors |
| RouteJsonifyer.FillLink | route_jsonifyer.py:96-109 | the bibcode loop fills the link, keeps every record it loads without its `bibcode` (the timestamp stays), and keeps only papers of the link |
| RouteJsonifyer.FillEntry | route_jsonifyer.py:91-109 | one link succeeds exactly when both names parse and its bibcodes fill |
| RouteJsonifyer.FillRow | route_jsonifyer.py:90-109 | a row succeeds with every link filled, or fails exactly when a name does not parse |
| RouteJsonifyer.InsertDocumentData | route_jsonifyer.py:88-109 | success exactly when no row fails; then every link is replaced by its triples, and `doc_data` holds the record of every referenced paper, without its `bibcode`, and of no other |
| RouteJsonifyer.OutPairings | route_jsonifyer.py:36-45 | the corrected half of the third Findings row: with no neighbour below the source, the store holds only the source's pair with itself, mapped to the bibcodes of its own papers |
| RouteJsonifyer.BibcodeAttrs | route_jsonifyer.py:44-45 | reading `doc.bibcode` over a list of bibcode strings raises exactly when the list is non-empty |
| RouteJsonifyer.OutPairingsAsWritten | route_jsonifyer.py:36-45 | the store as written raises exactly when the source has no neighbour below it and the author has papers; otherwise it is the corrected store |
| RouteJsonifyer.SameAuthorRaises | route_jsonifyer.py:42-45 | a search from an author with papers to the same author raises as written, while the corrected store pairs the author with itself under those papers |
| RouteJsonifyer.ToJson | route_jsonifyer.py:12-63 | the output holds the tree below the source, the filled link store, the records of exactly the papers it names (each without its `bibcode`), and the bare names of the source and the destination nodes; a name that does not parse raises |
| RouteJsonifyer.Indices | route_jsonifyer.py:101-107 | each index found is a position in the author list, and a failure is the parse error of one of its authors |
| RouteJsonifyer.Link | route_jsonifyer.py:96-108 | the link is replaced by exactly one triple per bibcode, in the same order |
| RoutePrinter.Fmt | route_printer.py:13-14 | `"{:w.w}"` gives exactly `w` characters: the name's first ones, then spaces |
| RoutePrinter.Pad | route_printer.py:27 | the indent of a row at depth d is d blank cells, each a column and a separator |
| RoutePrinter.PadOneLine | route_printer.py:27 | the indent holds no line break when the separator holds none |
| RoutePrinter.FmtOneLine | route_printer.py:29 | a formatted cell holds no line break when the name holds none |
| RoutePrinter.ConstructRows | route_printer.py:22-33 | the loop with its `first` flag and its recursion builds the rows below the node |
| RoutePrinter.Render | route_printer.py:12-20 | `__str__` is the source's cell, the separator and the rows below the source at depth 1 |
| RoutePrinter.RowsLines | route_printer.py:22-33 | the rows below a node break one line fewer than there are paths from the node to a leaf |
| RoutePrinter.NextLevelCount | route_ranker.py:112-119 | the chain builder adds one chain per path from the node to a leaf |
| RoutePrinter.TableLines | route_printer.py:12-33 | when no name and no separator holds a line break, the table has exactly one line per author chain the ranker builds |
| Repository.Sorted | repository.py:83-88 | every list is sorted with no duplicates and holds exactly the bibcodes of the set it replaces; the keys stay |
| Repository.AddAllMeaning | repository.py:76-79 | one document adds its bibcode to exactly the accepted names among its authors |
| Repository.IndexMeaning | repository.py:75-79 | a name is a key exactly when it is accepted and some document lists it, and its bibcodes are exactly the documents listing it |
| Repository.AddAuthor | repository.py:76-79 | one author adds the bibcode to its coauthor entry, and to its appears-as entry exactly when it equals the record's name; a name that does not parse raises |
| Repository.AddDocument | repository.py:75-79 | the author loop over one document builds both indexes of the specification, or raises on an author that does not parse |
| Repository.BuildIndexes | repository.py:73-79 | the document loop builds both indexes over all documents, or raises on an author that does not parse |
| Repository.FillInCoauthors | repository.py:72-88 | the record gets the two sorted indexes and nothing else changes; on an error the record is unchanged |
| Repository.NameTestMeaning | repository.py:78 | comparing with the record's name raises exactly when the string does not parse, and holds exactly when the parsed name equals the record's |
| Repository.FilledMeaning | repository.py:72-88 | every author string of the documents, the record's own name included, is a coauthor key with exactly the bibcodes listing it; appears-as holds exactly the names equal to the record's, with the same bibcodes |
| Repository.AppearsWithin | repository.py:77-79 | each appears-as entry is also a coauthor entry, with the same list |
| Repository.ParseAll | repository.py:52 | parsing every author succeeds exactly when each parses, keeping them in order; otherwise the error of one that does not |
| Repository.Keep | repository.py:56 | the names kept are exactly those of the list the test accepts, in order |
| Repository.UnflaggedKeeps | repository.py:56-59 | dropping the names whose flag is set keeps exactly those the negated test accepts |
| Repository.KeepTwice | repository.py:56-59 | two filters in turn are the filter on both tests |
| Repository.NotifyMeaning | repository.py:51-61 | the call raises exactly when a name does not parse; otherwise it enqueues exactly the names that are neither cached nor generatable from the cache, in order |
| Repository.Notify | repository.py:51-61 | the call succeeds exactly when every name parses, enqueuing no more names than given; a failure is the parse error of one of them |
| AppaRepository.AddAuthor | appa/repository.py:95-99 | one author adds the bibcode to its appears-as entry when it equals the record's name and to its coauthor entry otherwise; a name that does not parse raises |
| AppaRepository.AddDocument | appa/repository.py:94-99 | the author loop over one document builds both indexes of the specification, or raises on an author that does not parse |
| AppaRepository.BuildIndexes | appa/repository.py:94-99 | the document loop builds both indexes over all documents, or raises on an author that does not parse |
| AppaRepository.FillInCoauthors | appa/repository.py:91-108 | the record gets the two sorted indexes and nothing else changes; on an error the record is unchanged |
| AppaRepository.IndexesSplit | appa/repository.py:94-99 | no name is in both indexes; when every author parses, every name on the documents is in one of them; each entry holds exactly the bibcodes listing that name |
| AppaRepository.FirstEqualMeaning | appa/repository.py:134-137 | the author loop finds a match exactly when some author equals the name with every earlier one different, and raises at the first author, before any match, that does not parse |
| AppaRepository.FirstEqualCompares | appa/repository.py:134-137 | when every author parses, the loop finds a match exactly when some author equals the name |
| AppaRepository.FindFirst | appa/repository.py:134-137 | the loop with its `break` computes the specification |
| AppaRepository.KeptBibcodes | appa/repository.py:133-137 | the bibcodes kept are exactly those of the documents the test accepts |
| AppaRepository.SelectDocuments | appa/repository.py:133-137 | the document loop computes the selected bibcodes, in order |
| AppaRepository.SelectedMeaning | appa/repository.py:133-137 | when every author parses, the selected documents are exactly those listing an author equal to the name, in order |
| AppaRepository.TryGenerate | appa/repository.py:110-146 | the method computes the generated record of the specification, including each `CacheMiss` and parse error |
| AppaRepository.GeneratedMeaning | appa/repository.py:116-137 | a name without a modifier gives no record; a generated record has the modified name and the current time, needs the plain record and its documents cached, and holds exactly the documents listing an author equal to the modified name |
| AppaRepository.WorthCaching | appa/repository.py:33-42 | the records cached are exactly those with at least one document, in order |
| AppaRepository.Generated | appa/repository.py:116-139 | a name without a modifier gives no record; a generated record needs the plain name's record cached, and carries the modified name and the current time |
| Stats.InsertByTime | stats/main.py:156 | inserting a message adds exactly that message |
| Stats.InsertSorted | stats/main.py:156 | inserting into a list in publish-time order keeps it in order |
| Stats.ByTime | stats/main.py:156 | the messages in publish-time order, a permutation of the pulled ones |
| Stats.ApplyMeaning | stats/main.py:164-184 | a duplicate of the last recorded change leaves the record alone; a recent change only records its sense and is published again; an older change is added to the count and recorded; no other item changes |
| Stats.Drain | stats/main.py:142-147 | the pull loop collects every ack id and every message, in order |
| Stats.Dedup | stats/main.py:161-184 | the message loop computes the de-duplicating fold |
| Stats.AckChunks | stats/main.py:197-201 | the acknowledge requests are the ack ids cut into chunks of 500 |
| Stats.SumStates | stats/main.py:187-190 | the loop sums the per-item counts |
| Stats.GetUpdatedCacheCount | stats/main.py:112-203 | the counts come back unchanged when nothing is pending; otherwise each is its input plus the sum of its items' counts, with the republished messages and the ack requests |
| Stats.ChunksCover | stats/main.py:197-201 | the chunks cover every ack id exactly once, in order, and each holds between 1 and 500 of them |
| Stats.RepublishedRecent | stats/main.py:177-182 | every message published again is one of the pulled messages and recent |
| Stats.FoldValid | stats/main.py:161-169 | each record has exactly one entry per item id of its type seen, with distinct keys in insertion order |
| Stats.TouchedMeaning | stats/main.py:165-169 | the ids touched are exactly those of the messages of that type |
| Stats.OldMessagesAlternate | stats/main.py:164-184 | with no recent message, every item's net change is -1, 0 or 1 and equal to its last change when not zero, and nothing is published again |
| Stats.RecentMessagesWait | stats/main.py:177-178 | with only recent messages, no count changes |
| Stats.CountUnchanged | stats/main.py:152-153 | with nothing pending, or only recent messages, the counts come back unchanged |
| Stats.MetricsDistinct | stats/main.py:36-53 | no two metrics share a name |
| Stats.AddHourMeaning | stats/main.py:282-288 | each cumulative series gains exactly one value, its last value plus the hour's increment; the other series are unchanged |
| Stats.FillHours | stats/main.py:274-290 | the loop collects the hours and counts them |
| Stats.AddMetrics | stats/main.py:282-288 | the inner loop adds one value per cumulative metric |
| Stats.CollectAligned | stats/main.py:275-290 | series as long as the timestamp list stay so |
| Stats.HoursMeaning | stats/main.py:275-290 | the hours collected are the whole hours after the last timestamp and strictly before the current hour, and none is missing |
| Stats.CollectHours | stats/main.py:275-290 | the timestamp list gains exactly those hours |
| Stats.Padded | stats/main.py:259-261 | stored series are kept, and a cumulative metric the file lacks gets a series of zeros as long as the timestamp list |
| Stats.PadMissing | stats/main.py:259-261 | the loop pads exactly the missing metrics |
| Stats.PadSizes | stats/main.py:312-321 | a cache size list grows by one value per new hour: repeats of its last value, then the updated count |
| Stats.Start | stats/main.py:253-272 | the stored file padded, or one day's empty data with zero cache sizes |
| Stats.InitialExtendable | stats/main.py:253-272 | the starting data has a series for every cumulative metric and cache sizes to extend |
| Stats.UpdateStats | stats/main.py:247-321 | the method computes the updated file and the number of hours collected, counting the cache only when at least one hour was collected |
| Stats.UpdatedConsistent | stats/main.py:259-321 | a file whose series all match its timestamps stays so, and its timestamps gain exactly the whole hours since the last one |
| Stats.Apply | stats/main.py:164-184 | a message's item always gets an entry, and it is published again only when it is recent |
| Stats.ApplyAlternating | stats/main.py:176-184 | an older message keeps the record alternating, each count being 0 or its entry's last change (a create or a delete), and is not published again |
| Stats.Fold | stats/main.py:163-184 | over the sorted messages, at most one is published again per message |
| Stats.CacheCount | stats/main.py:112-203 | the counts come back unchanged when nothing is pending, and at most one message per pulled message is published again |
| Stats.Updated | stats/main.py:247-324 | the timestamps only grow, the file is saved exactly when at least one hour was added, and each cache-size series gains one value per hour added |

## Left out

- Network and storage I/O is not modelled: ADS queries, Firestore and the other cache back ends, Pub/Sub, Cloud Monitoring, Cloud Storage and logging. Their results are parameters of the model, and the cache back end is a map.
- The HTTP plumbing of the relay (routing, the cron header, CORS, port choice) and its goroutines are not modelled. `sync.Map` is modelled as two plain maps, so concurrent access and the race between writers are not captured. The configured token and the sweep interval are parameters.
- Go's `len` counts bytes, so relay keys and values are byte sequences. The UTF-8 encoding of an HTTP form value is not modelled.
- Case folding, whitespace and printability checks cover ASCII (and the C1 controls for printability), not all of Unicode. `PyStr.IsDigit` and `PyStr.ParseInt` accept the ASCII digits 0-9 only. Python's `int()` also accepts the other Unicode decimal digits, such as the Arabic-Indic "١٩٩٠", and the model gives `None` for such text.
- AdsBuddy.BibcodeNeedsNumericStart: because the model's `int()` accepts ASCII digits only, a 19-character value whose first four characters are Unicode decimal digits outside ASCII is no bibcode here. Python's `int()` accepts those four characters, so the source's `is_bibcode` takes such a value for a bibcode.
- `ADSName.parse` is not defined in ads_name.py. The model takes it to be the one-string constructor at ads_name.py:33-77; several operations take it as a parameter `parse`.
- The `exclude_exact_match` attribute read by repository.py is not defined in ads_name.py. It is modelled as "some modifier is set": the exact, the more-specific or the less-specific flag.
- `InvalidName`, which ads_buddy.py catches, is not defined in ads_name.py. It is modelled as any error of the parser.
- ads_buddy.py is modelled against the appa `DocumentRecord` of appa/records/document_record.py, because the record type at the repository root is not part of this model.
- `html.unescape` on titles is the identity here. `difflib` similarity and the floating-point score formula of the ranker are the given function `weigh`. The search statistics and `gen_bin_edges` in the stats job are not modelled, and neither are the plots, the archive or the distributions.
- Timestamps are integers. `MAXIMUM_AGE_AUTO` is `MAXIMUM_AGE - 95040`, which equals the source's float `MAXIMUM_AGE - 1.1 * 24 * 60 * 60`. The stats job's `time.time()` values are reals.
- `functools.lru_cache`, the memoisation of parsed names, is not modelled, because it changes nothing a caller sees.
- The order in which Python iterates over a set or a dict is not modelled. Where the source iterates a container, the model iterates a sequence given by the caller. Where a result depends only on membership, the contracts say so.
- Sorting is proved to give a sorted permutation. Its stability is not proved.
- Where a string key reaches a name-aware container, the caller parses it first, as `NameAwareDict` does with `ADSName.parse`.
- `load_document_data` is called in route_ranker.py and route_jsonifyer.py but is not defined in cache_buddy.py. It is given as a function `load` from bibcode to record.
- The appa `notify_of_upcoming_document_request` is the same loop as the root `Repository.notify_of_upcoming_document_request`. It is modelled once, as `Repository.Notify`.
- `get_author_record`, `get_document` and the ADS fetch they fall back to are cache and network I/O. The repositories' index building is modelled over a given list of documents.
- The `difflib` guesses that `AdsBuddy` and `AppaAdsBuddy` compute when a document matches none of the queried names (ads_buddy.py:106-132, appa/ads_buddy.py:127-153) only build a warning message for the log, and they are not modelled.
- PathFinders.PathFinder.Search, FinalGraph.Prune and PathFinders.PathFinder.FindPath take a `fuel` bound on their outer loops in place of the source's unbounded `while`. A search that runs out of fuel is reported as an error.
- PathFinders.PathFinder.ExpandFrom does not state that a coauthor with no usable bibcode leaves the search unchanged. The loop skips such a coauthor, as path_finder.py:113-114 does, but the contract speaks only of the coauthors it considers, and of the frame kept by `Since`.
- PathFinders.PathFinder.ExpandFrontier does not carry to the whole frontier what ExpandAuthor states for each author, namely that the author's usable coauthors were reached. It states where the new nodes sit, and it states each author's node and distance at the time it was expanded. A later author of the same frontier may bring a node closer or add links, and the model proves no invariant that such a reach persists.
- PathFinders.PathFinder.ProduceFinalGraph: the property that a kept link's two distances sum to the path length is not proved. Symmetry after pruning is stated for the nodes step one visits; those are the only nodes whose links the source mirrors.
- Stats.UpdateStats requires of a stored data file (`Extendable`) a non-empty `timestamp` series, non-empty author and document cache-size lists, and a non-empty stored series for each cumulative metric the file holds. A metric the file lacks is padded (stats/main.py:259-261) and needs nothing. The source reads `cumulative['timestamp'][-1]` on every run (stats/main.py:275) and raises `IndexError` there on an empty list. It reads the metric series (stats/main.py:287) and the cache sizes (stats/main.py:309-310) only when at least one hour is collected, so on a run that collects no hour the model demands those lists non-empty where the source would not raise. None of these `IndexError` paths is modelled.
- Stats: `PUBSUB_WAIT` is 120 seconds, the value in the sample configuration.
- AppaAdsBuddy.ArticleToRecord requires the affiliation list to be at least as long as the author list. On a shorter one the source raises `IndexError` when it deletes a bad author beyond its end, and otherwise keeps the short list; neither path is modelled.
- AppaAdsBuddy.ArticleToRecord: its ORCID ids are those of `ChooseValidOrcid`, so a signed candidate is treated as the corrected check treats it (see the next line).
- AppaAdsBuddy.ChooseValidOrcid uses the corrected id check `IsOrcidId` of the first row of Findings, not `is_orcid_id` as written. A candidate such as "-123456789012345" is skipped here, while the source stores it as "-123-4567-8901-2345" with its source number. AppaAdsBuddy.SignedIdAccepted shows the source's check accepting it.
- AppaAdsBuddy.ChoiceValid states the choice of `ChooseValidOrcid`, so it inherits the corrected id check and says nothing about signed candidates as the source treats them.
- AppaAdsBuddy.ValidChoices is built from `ChooseValidOrcid` and inherits the corrected id check.
- AppaAdsBuddy.ChooseValidOrcids computes `ValidChoices` and inherits the corrected id check.
- AppaAdsBuddy.StoredIdsNormalised holds for the corrected id check. Under the check as written a stored signed id such as "-123-4567-8901-2345" fails `is_orcid_id`.
- AppaAdsBuddy.ArticleDataConsistent is stated for the records built with the corrected id check.
- AppaAdsBuddy.GetPapersForOrcidId requires every document's ORCID list to fit its author list. On a shorter list the source raises `IndexError`.
- AppaAdsBuddy.GetPapersForOrcidId names the record with the corrected choice of the second row of Findings (`BestBy` through `OrcidRecordName`). When two spellings tie on detail and length, such as "smith, john" and "smith, jane", the source's sort at appa/ads_buddy.py:79-80 raises `TypeError` (AppaAdsBuddy.NameTieRaises), while the model returns one of the two names.
- AppaAdsBuddy.GetPapersForOrcidId parses the id with the one-string constructor of ads_name.py. The source calls `ADSName.parse(orcid_id, preserve=True)` from the `names.ads_name` module it imports, which is not part of this model, so what `preserve=True` keeps of the id is not modelled.
- AdsBuddy.RemoveMarked requires each per-author list to reach at least as far as the author list and the ORCID sources to be a list. Otherwise the source's `del` raises `IndexError` or `TypeError` part-way through the deletions, and that path is not modelled.
- AdsBuddy.FilterInvalidAuthors has the requirement of AdsBuddy.RemoveMarked, for the same reason.
- AdsName.Str: parsing `str` gives the name back only for canonical names (AdsName.StrRoundTrip). The parser lowers the text and splits the given part at whitespace, so a name built from separate parts holding upper case or spaces does not come back.
- AuthorRecords: the record class that declares `coauthors`, `appears_as` and `timestamp` is not part of this model. author_record.py:8-20 declares only `name` and `documents`. The other three fields are those that repository.py:83-88 and cache_buddy.py assign and read.
- CacheBuddy.StoreAuthor and CacheBuddy.AuthorOfStored treat the author record's `compress()` (cache_buddy.py:169) and `decompress()` (cache_buddy.py:273) as the identity, because neither method is defined in author_record.py.
- CacheBuddy: the in-memory maps of loaded records hold value snapshots. The source keeps references to the record objects, which `_fill_in_coauthors` mutates. `get_author_record` calls `_fill_in_coauthors` before `cache_author` stores the record (repository.py:31-37), and no modelled operation mutates a record once it is cached, so a snapshot holds what the source's reference would show.
- DocumentRecords: `asdict` is modelled as the `Data()` projection of the record.
- RouteJsonifyer.ToJson leaves out the search statistics and the `json.dumps` text. Its `srcPapers` argument is the source author's `documents`, which every producer in the source fills with bibcode strings. It uses the corrected store of the third row of Findings: when the source has no neighbour and the author has papers, the source raises `AttributeError` (RouteJsonifyer.SameAuthorRaises), while the model returns the output.
- RouteJsonifyer.OutPairings is the corrected store of the third row of Findings. It takes the author's papers as bibcodes, where the source reads `doc.bibcode` on each of them and raises.
- RouteRanker.ScoreChoice and RouteRanker.ChoiceFrom sum a choice's link scores as exact reals. The source adds Python floats left to right (route_ranker.py:192) and sorts on those sums (route_ranker.py:199, route_ranker.py:157-158), and the rounding of that float sum is not modelled. Two choices scoring (0.1, 0.2, 0.3) and (0.3, 0.2, 0.1) sum to 0.6000000000000001 and 0.6 in Python. Here they tie, so the tie-break on the paper triples decides their order, and that can pick another top choice.
- Stats.ByTime and Stats.PublishTime order messages by the exact real `seconds + nanos / 1e9`. The source computes that key as a float (stats/main.py:146) and sorts stably on it (stats/main.py:156). At current epochs neighbouring floats are about 0.24 microseconds apart, so two messages published less than that apart can tie in the source and keep their pull order. `ByTime` orders them by their nanoseconds instead, which can change what the de-duplicating fold (stats/main.py:164-184) counts.
- RouteRanker: when two ranked entries tie up to their (bibcode, first author index, second author index) triples, the order here puts a `None` author index before any number. Python would raise `TypeError` on comparing `None` with an int, and that error is not modelled.

## Findings

| source | as written | input that shows it | evidently intended | confidence | as-written member | corrected member |
|---|---|---|---|---|---|---|
| appa/ads_buddy.py:336-341 | After a final `X` is dropped, `_is_int` decides whether the id is all digits. `int()` also accepts a leading sign. | `"-123456789012345"` (a minus sign and 15 digits) passes `is_orcid_id`. Its normalised form `"-123-4567-8901-2345"` then fails the same check. | every character but an optional final `X` is a digit, as the comment at line 340 says | not executed | AppaAdsBuddy.SignedIdAccepted | AppaAdsBuddy.NormalizeKeepsValid |
| appa/ads_buddy.py:79-80 | The candidate names are sorted as tuples `(level_of_detail, len(full_name), name)`. When two differ but tie on the first two fields, Python compares the two `ADSName`s, which define no order. | The names "smith, john" and "smith, jane" for one ORCID id raise `TypeError`. | take a name of the highest detail, and the longest among those | not executed | AppaAdsBuddy.NameTieRaises | AppaAdsBuddy.OrcidRecordNameBest |
| route_jsonifyer.py:44-45 | When the source author has no neighbour toward the destination (a search from an author to the same author), the bibcodes are read as `doc.bibcode` over the author record's `documents`. Every producer of that list in the source (ads_buddy.py:98-99, repository.py:116-120, appa/ads_buddy.py:73) fills it with bibcode strings, which have no attribute `bibcode`. | A search from an author with at least one paper to that same author raises `AttributeError`. | the pair of the author with itself maps to the bibcodes of the author's papers | not executed | RouteJsonifyer.OutPairingsAsWritten | RouteJsonifyer.OutPairings |
