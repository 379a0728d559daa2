# MapToMethod core in Dafny

MapToMethod lets a user map the data entities of a tabular data document to the
information content entities of a test-method graph. This project models the part of
`maptomethod.py` that decides which entities show up on each side, and
proves what that part computes:

- **Subclass closure** (`SubClass`, `Ontology`). The query
  `SELECT ?entity WHERE {?entity rdfs:subClassOf* ?parent}` runs over the Common Core
  merged ontology and the MSEO mid-level ontology, parsed into one graph. It is
  modelled as the zero-or-more property path of section 9.4 of the SPARQL 1.1 Query
  Language recommendation, and computed by a fixpoint that also terminates when the
  subclass edges form a cycle. `get_ICE_classes` uses the parent
  `cco:InformationContentEntity`. `get_temporal_region_classes` uses
  `obo:BFO_0000008` (BFO temporal region).
- **Entity extraction** (`Entities`, `PyDict`, `PyStr`).
  `{s.split('/')[-1]: s for s, p, o in g.triples((None, RDF.type, None)) if o in classes}`
  is modelled as a fold over the triples in the order the store answers that pattern:
  - The graph is a sequence of triples. rdflib's memory store answers
    `(None, rdf:type, None)` grouped by class, so "later" in the lemmas below means
    later in that answer, not later in the document.
  - A Python dict is a sequence of key/value pairs with unique keys, kept in insertion order.
  - A repeated key overwrites the value in place.
  
  The method side uses the union of the two closures. The data side uses exactly
  `cco:InformationLine` and `csvw:Column`.
- **The `Mapper` object** (`Mapper`). It holds the method entities and the
  data-side choice list: `(None, 'None')` first, then one `(IRI, short id)` pair
  per entry of the data-side dict (fewer than the data entities when short ids collide). Any parse failure of the data document becomes
  `ValueError('url target is not a valid json-ld file')`.
- **File names** (`UrlNames`). `get_methods` and `get_mappings` keep the download URLs
  ending in `ttl` or `yaml`. Each URL is keyed by what
  `re.search('[^/\\&\?]+\.\w{3,4}(?=([\?&].*$|$))', url)[0].split('.')[0]` yields.
  The model encodes the regular expression as Python compiles it:
  - The character class excludes `/`, `&` and `?`. It does not exclude the backslash.
  - `$` also matches just before a final newline.
  - The search reports the leftmost start.
  
  When the search finds nothing, the source subscripts `None` and raises `TypeError`. The
  model returns that error for the whole comprehension.

Parsing, network fetches and the GitHub folder listing are inputs to the model, not
part of it:
- A parse outcome is `Result<Graph, string>`.
- A folder listing is the sequence of its entries' `download_url` values. A sub-folder
  has none (`None`), and calling `endswith` on it raises `AttributeError` before any
  name is read.

Python exceptions are values of `Errors.Exception`. Terms keep rdflib's distinction
between IRIs, blank nodes and literals, because an IRI never equals a literal with the
same text.

The code lets the subject iterated later
overwrite the earlier one without notice. `Entities.LaterSubjectWins` and
`Entities.EarlierSubjectDropped` state the behaviour as written.
`Entities.NoCollisionKeepsAll` states the condition under which nothing is lost.

## Model

| member | source | states |
|---|---|---|
| SubClass.Closure | maptomethod.py:40-43 | the query result holds the parent, lies within the classes the edges mention, and holds a class exactly when a chain of zero or more subClassOf edges leads from it to the parent |
| SubClass.Grow | maptomethod.py:40-43 | each round of adding direct subclasses keeps every member reaching the parent and ends in a set closed under taking subclasses, with a decreasing measure that bounds the rounds even on cyclic hierarchies |
| SubClass.ClosedHoldsChain | maptomethod.py:40-43 | a set that holds the parent and is closed under taking subclasses holds the start of every chain to the parent |
| SubClass.ClosureTransitive | maptomethod.py:40-43 | the closure of any member of a closure is contained in it |
| SubClass.ClosureOfLine | maptomethod.py:40-43 | for a < b < c the closure of c is exactly {a, b, c} |
| SubClass.ClosureOfCycle | maptomethod.py:40-43 | for a cyclic hierarchy a < b < a the closure of a is exactly {a, b} |
| Ontology.LoadOntology | maptomethod.py:109-112 | the first failing parse is raised; otherwise the graph holds exactly the triples of both documents |
| Ontology.ClassesUnder | maptomethod.py:115-116 | fails exactly when loading fails, with the same error; otherwise holds the parent and exactly the classes that are subClassOf* the parent in the merged graph |
| Ontology.IceClasses | maptomethod.py:108-117 | succeeds exactly when loading does; then holds exactly the classes that are subClassOf* InformationContentEntity |
| Ontology.TemporalRegionClasses | maptomethod.py:119-128 | succeeds exactly when loading does; then holds exactly the classes that are subClassOf* BFO_0000008 |
| Ontology.SubClassEdges | maptomethod.py:41 | the edges the path follows are exactly the pairs (c, p) with a triple `c rdfs:subClassOf p` in the graph |
| Entities.ShortId | maptomethod.py:137 | the key of a subject: `s.split('/')[-1]` of its text, characterised by `PyStr.LastSegment` |
| Entities.EntityItem | maptomethod.py:137 | a triple contributes an item exactly when it types its subject with a filter class, and the item is the subject under its short id |
| Entities.Extract | maptomethod.py:137 | keys are unique and each is the last `/` segment of its subject; every value is typed with a filter class; every such typed subject's short id is a key |
| Entities.LaterSubjectWins | maptomethod.py:137 | on a short-id collision the subject of the last matching triple is the one stored under that key |
| Entities.EarlierSubjectDropped | maptomethod.py:137 | on a short-id collision the earlier subject appears nowhere among the values |
| Entities.NoCollisionKeepsAll | maptomethod.py:137 | when short ids tell the typed subjects apart, the values are exactly the typed subjects |
| Entities.KeptWithoutCollision | maptomethod.py:137 | a typed subject whose short id no other typed subject shares is among the values |
| Entities.DataInfo | maptomethod.py:140-147 | a parse failure propagates; otherwise the keys are the short ids of exactly the InformationLine and Column individuals, and each value is such an individual under its own short id, the last one when short ids collide |
| Entities.DataInfoExcludesOtherTypes | maptomethod.py:146 | a subject typed with neither data class never appears among the values |
| Entities.MethodClasses | maptomethod.py:132-134 | the method-side class list succeeds exactly when the ontology loads and holds exactly the classes under InformationContentEntity or under the temporal region class |
| Entities.MethodIces | maptomethod.py:130-138 | ontology failures come first, then the method graph's parse failure; on success the keys are the short ids of exactly the method-graph individuals typed with a class of the union, and each value is such an individual under its own short id, the last one when short ids collide |
| Mapper.MapperDataInfo | maptomethod.py:59-70 | every parse failure becomes ValueError with the fixed message; on success it agrees with the module-level `get_data_Info` |
| Mapper.Choices | maptomethod.py:54-55 | the choice list is one longer than the dict, starts with (None, 'None'), and then pairs each value with its key in dict order |
| Mapper.InfoLinesOfData | maptomethod.py:53-55 | after the sentinel, every choice is a data entity of the document labelled with its own short id, and the length is the dict's entry count plus one |
| Mapper.InfoLinesDistinct | maptomethod.py:53-55 | no two choices after the sentinel carry the same label |
| Mapper.InfoLinesComplete | maptomethod.py:53-55 | every InformationLine or Column individual's short id labels some choice |
| Mapper.NewMapper | maptomethod.py:49-56 | method-side failures win, then a data parse failure becomes ValueError; on success the fields hold the URLs, the method entities and the choice list of the data entities |
| UrlNames.SearchFrom | maptomethod.py:76 | the reported start matches and no earlier start from the scan point does; no result means no start matches |
| UrlNames.NameOf | maptomethod.py:76 | no name exactly when the pattern matches nowhere; otherwise the name is the text from the leftmost match start to its first dot |
| UrlNames.KeyIgnoresMatchEnd | maptomethod.py:76 | whichever extension split the engine picks, the text before the first dot is the same |
| UrlNames.ByName | maptomethod.py:75-76 | fails with TypeError exactly when some kept URL has no match; otherwise keys are unique, every value is a listed URL with the suffix named by its key, and every such URL's name is a key |
| UrlNames.DownloadUrls | maptomethod.py:75 | the URLs of a listing without sub-folders, one per entry and in listing order |
| UrlNames.ListingByName | maptomethod.py:75-76 | an entry without a download URL raises AttributeError; otherwise failure exactly when a kept URL has no match (TypeError); on success keys are unique, every value is a listed URL with the suffix named by its key, and every such URL's name is a key |
| UrlNames.Methods | maptomethod.py:72-77 | the `ttl` instance: AttributeError on a sub-folder entry, failure exactly when a sub-folder or an unnamed `ttl` URL is listed, and every value is a listed `ttl` URL under its name |
| UrlNames.Mappings | maptomethod.py:79-85 | the `yaml` instance: AttributeError on a sub-folder entry, failure exactly when a sub-folder or an unnamed `yaml` URL is listed, and every value is a listed `yaml` URL under its name |
| UrlNames.NamedItem | maptomethod.py:75-76 | a URL contributes an item only when it ends with the suffix and the pattern matches in it; the item is its name and the URL |
| UrlNames.Unnamed | maptomethod.py:75-76 | a kept URL in which the search finds nothing, the case where `re_search(...)[0]` raises TypeError |
| UrlNames.IsWordChar | maptomethod.py:75-76 | `\w`, restricted to ASCII letters, digits and underscore |
| UrlNames.ExtensionAt | maptomethod.py:75-76 | `\.\w{k}` with its dot at a position, followed by the lookahead |
| UrlNames.InNameClass | maptomethod.py:76 | `[^/\&\?]` as Python compiles it: any character except `/`, `&` and `?` |
| UrlNames.EndAnchorAt | maptomethod.py:76 | `$` without MULTILINE: the end of the text, or just before a final newline |
| UrlNames.LookaheadAt | maptomethod.py:76 | `(?=([\?&].*$\|$))`: the end anchor, or a `?` or `&` followed by newline-free text up to an end anchor |
| UrlNames.MatchesAt | maptomethod.py:76 | the pattern matches at a start: a non-empty run of name characters, a dot, three or four word characters, then the lookahead |
| UrlNames.NoDotNoName | maptomethod.py:76 | a URL without a dot has no name |
| UrlNames.DotlessUrlFails | maptomethod.py:75-76 | one dotless URL with the suffix makes the whole listing fail with TypeError |
| UrlNames.LaterUrlWins | maptomethod.py:76 | among URLs with the same name, the one listed last is stored under it |
| UrlNames.NoMatchBeforeSlash | maptomethod.py:76 | no match starts at or before a `/` that has no `?` or `&` before it |
| UrlNames.MatchAtBasename | maptomethod.py:76 | name characters, a dot, three or four word characters and the end or a query make a match |
| UrlNames.NameOfShaped | maptomethod.py:76 | a URL of that shape is named by the text after its `/` up to the first dot |
| UrlNames.NameOfBasename | maptomethod.py:76 | a download URL `dir/stem.ext` with an optional query is named by its stem cut at the first dot |
| UrlNames.DoubleExtensionName | maptomethod.py:76 | a file such as `DIN_EN_ISO_527-3.drawio.ttl` is named without either extension |
| PyDict.Collect | maptomethod.py:69 | the comprehension's result has unique keys |
| PyDict.CollectEntries | maptomethod.py:69 | every entry comes from an item that no later item overrides |
| PyDict.CollectCovers | maptomethod.py:69 | every key some item yields is in the result |
| PyDict.CollectLastWins | maptomethod.py:69 | the value stored under a key is the one from the last item yielding that key |
| PyDict.CollectStep | maptomethod.py:69 | one more item keeps the stored keys in place and adds at most its own key, only when that key was not stored yet |
| PyDict.CollectOrder | maptomethod.py:69 | keys appear in the order of their first items |
| PyDict.Put | maptomethod.py:69 | assignment keeps keys unique and a lookup of the key then gives the new value; an existing key keeps its position, a new key goes at the end, and every other entry is unchanged |
| PyDict.Get | maptomethod.py:69 | a lookup finds nothing exactly when the key is absent, and otherwise the value stored with it |
| PyStr.EndsWith | maptomethod.py:75 | `url.endswith(suffix)`: the last characters of the text are exactly the suffix, character by character |
| PyStr.LastSegment | maptomethod.py:69 | `split('/')[-1]` holds no separator, is a suffix, and is preceded by the separator when shorter than the input |
| PyStr.LastSegmentOfJoin | maptomethod.py:69 | the last segment of `d/b` is `b` when `b` holds no separator |
| PyStr.FirstSegment | maptomethod.py:76 | `split('.')[0]` holds no separator, is a prefix, and is followed by the separator when shorter than the input |
| PyStr.FirstSegmentOfPrefix | maptomethod.py:76 | only the text up to the first separator decides the first segment |
| PyStr.FirstSegmentOfJoin | maptomethod.py:76 | the first segment of `a.b` is `a` when `a` holds no separator |

## Left out

- GitHub access and I/O: the repository handles (maptomethod.py:45-46), the folder listings (75, 83) and `save_mapping` (87-106) talk to the GitHub API. The listings, as the entries' `download_url` values, are inputs to `UrlNames.Methods` and `UrlNames.Mappings`, and `save_mapping` is not modelled.
- Parsing: rdflib's Turtle, RDF/XML and JSON-LD parsers and the network fetches behind them are replaced by their outcomes, a graph or an error message.
- Ontology.IceClasses: `get_ICE_classes` and `get_temporal_region_classes` each fetch and parse both ontology documents. The model assumes both fetches give the same outcome.
- Ontology.ClassesUnder: the query returns a list in rdflib's result order, and the model keeps a set. The source only tests membership in it.
- The query binds the prefix `rdsf` (maptomethod.py:42), not `rdfs`. `rdfs:` still resolves through rdflib's default namespace bindings, which the model assumes.
- UrlNames.IsWordChar: `\w` is restricted to ASCII letters, digits and underscore. Python's Unicode `\w` also accepts other letters and digits.
- Entities.Extract: short-id collisions are overwritten silently, as the code does. Detecting or reporting them is not modelled.
- Module setup: SSL verification and YAML dumper configuration (maptomethod.py:12-34) are not modelled.
- `Mapper.__str__` (57-58) and the `map_elements` field (56) are not modelled. The field is always an empty list in this code.
- The commented-out `MapDialog` class (149 onwards) is not modelled.
- `print` calls (81, 97-106) are not modelled.
- The web application, forms and settings (app.py, forms.py, settings.py, config.py) are not part of this model.
