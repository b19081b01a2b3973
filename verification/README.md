# jsonld-rdfa-parser in Dafny

A model of the RDFa parser plugin for jsonld.js. Given a DOM node, a URL, an HTML
string or a file path, the parser obtains a DOM and runs the RDFa extraction of
`graph-rdfa-processor` on it. If the node has no usable base URI, it passes
`http://localhost/` as the base. It then normalizes the extracted
subject → predicate → object map into the triples of one `@default` graph
(`processGraph`).

The model is purely functional:

- `Graph` (graph.dfy): the extracted map as ordered sequences. Subjects and predicates
  keep the insertion order that `for...in` visits. `Flatten` is the reference order of
  the three nested loops. `Position` is the index at which a given object is visited.
- `Rdf` (rdf.dfy): the vocabulary constants. It also defines the output terms, triples
  and dataset, and what a well-formed object term is.
- `Normalizer` (normalizer.dfy): `processGraph`. This covers blank-node/IRI
  classification, typing of literals, serialization of XML literals, and the loops.
- `Parser` (parser.dfy): `jsonldRdfaParser` and `process`. This covers input
  classification, the markup regular expression, the base-URI fallback and error
  propagation.
- `JsString`, `Dom`, `Errors`, `Wrappers`: `indexOf`, the node type, the error
  kinds, and `Option`/`Result`.

The foreign steps are parameters of the functions that use them:

- the `is-url` predicate;
- `jsdom.env`, which fetches, reads or parses the source;
- `getRDFaGraph`;
- `XMLSerializer.serializeToString`.

A thrown exception is a `Failure` carrying an `Error`. A serializer that throws
returns `None`.

Behaviour of the code that the model keeps, although a reader might expect otherwise:

- A language-tagged plain literal has BOTH a datatype (`rdf:langString`) and a language.
  It does not have exactly one of them.
- `processGraph` has no HTML-literal branch. An `rdf:HTML` object is a typed literal
  whose value is passed through unchanged, like every other non-XML type.
- An XML literal whose value is a string gets the value `""`. The serialization loop
  walks the characters, and a character has no `nodeType`.
- An `rdf:object` whose value is a node list fails with a TypeError (`ValueNotString`),
  because a node list has no `indexOf`. The extraction never produces such an object.
  The model assumes the list is a DOM `NodeList` rather than an array.
- `null` data fails with a TypeError (`NullData`). The test `'nodeType' in data` throws
  before any callback is called.

## Model

| member | source | states |
|---|---|---|
| JsString.IndexOf | src/index.js:86 | `indexOf` returns -1 exactly when the needle occurs nowhere. Otherwise it returns the first index where the needle occurs. |
| JsString.IndexFrom | src/index.js:86 | Searching from `from` (at most the string length, as in the only use, `from = 0`), the result is -1 or the first occurrence at or after `from`. |
| JsString.IndexOfZeroIsPrefix | src/index.js:86 | `s.indexOf(p) === 0` holds exactly when `p` is a prefix of `s`. |
| Normalizer.IsBlankNodeId | src/index.js:86 | The `indexOf('_:') === 0` test holds iff the identifier starts with `_:`. |
| Normalizer.ClassifyTerm | src/index.js:85-97 | A subject or predicate is a blank node iff it starts with `_:`, and an IRI otherwise. It is never a literal, and its value is the key unchanged. |
| Normalizer.XmlLiteralValue | src/index.js:99-112 | The XML-literal value fails iff serializing some element node throws. An empty node list gives `""`. |
| Normalizer.XmlLiteralSingleton | src/index.js:106-110 | One element node adds its serialization (or fails when the serializer throws), one text node adds its `nodeValue`, and any other node adds `""`. |
| Normalizer.XmlLiteralAppend | src/index.js:104-111 | The value of a concatenated node list is the concatenation of the parts' values, in order. |
| Normalizer.XmlLiteralIgnoresOtherNodes | src/index.js:105-110 | Nodes other than elements (type 1) and text (type 3) contribute nothing. |
| Normalizer.ConvertObject | src/index.js:99-138 | An `rdf:object` string becomes a blank node iff it starts with `_:`, else an IRI, with no datatype or language and the value copied. Every other object is a literal that always has a datatype. A plain literal gets `rdf:langString` plus its language iff the language is non-empty, else `xsd:string` with no language. Any other type is itself the datatype. A non-XML value is kept unchanged, and an XML literal's value is its serialized nodes; a serializer exception on an XML literal is reported as `SerializationFailed`. The result is always well formed. |
| Normalizer.MakeTriple | src/index.js:82-138 | One triple per object. It is well formed, with subject and predicate classified by the `_:` prefix and values copied. It fails exactly when the object's conversion throws. |
| Normalizer.ConvertEntries | src/index.js:79-142 | Converting a sequence of visits succeeds iff every visit converts. On success it yields one triple per visit, at the same index. On failure it reports the error of the first failing visit. |
| Normalizer.ConvertEntriesAppend | src/index.js:73-144 | Converting two runs of visits in a row: the first failure wins; otherwise the triples appear in order and are never reordered. |
| Normalizer.ObjectTriplesConvertEntries | src/index.js:79-142 | The object loop converts its objects in index order. |
| Normalizer.PredicateTriplesConvertEntries | src/index.js:76-143 | The predicate loop converts the objects of each predicate in turn. |
| Normalizer.SubjectTriplesConvertEntries | src/index.js:73-144 | The three nested loops convert exactly the visits of the reference order `Flatten`. |
| Normalizer.ProcessGraph | src/index.js:67-147 | Succeeds iff every object converts. It then has exactly one triple per object (count = sum of all `objects.length`), the k-th triple is that of the k-th visited object, and every triple is well formed. An empty graph gives an empty dataset. Otherwise the error is that of the first failing object. |
| Normalizer.TripleAtPosition | src/index.js:73-141 | The triple of object (i, j, k) sits at that object's position in `@default`. |
| Normalizer.ProcessGraphAppend | src/index.js:73-144 | The dataset of `a + b` is the dataset of `a` followed by that of `b`. |
| Normalizer.DuplicatesKept | src/index.js:79-141 | An object listed twice yields two equal triples at different positions. Nothing is deduplicated. |
| Graph.ObjectEntries | src/index.js:79-80 | The object loop visits each object once, in index order. |
| Graph.PredicateEntries | src/index.js:76-80 | The predicate loop makes one visit per object of the subject. |
| Graph.Flatten | src/index.js:72-80 | The nested loops make one visit per object of the graph. |
| Graph.PredicateObjectCountAppend | src/index.js:76-79 | Object counts add up over concatenated predicate lists. |
| Graph.ObjectCountAppend | src/index.js:73-79 | Object counts add up over concatenated subject lists. |
| Graph.PredicateEntriesAppend | src/index.js:76-80 | The predicate loop over `a + b` visits `a`'s objects, then `b`'s. |
| Graph.FlattenAppend | src/index.js:73-80 | The subject loop over `a + b` visits `a`'s objects, then `b`'s. |
| Graph.FlattenSplit | src/index.js:73-80 | Subject i's visits come after those of earlier subjects and before those of later ones. |
| Graph.PredicateEntriesSplit | src/index.js:76-80 | Predicate j's visits come after those of earlier predicates and before those of later ones. |
| Graph.FlattenPosition | src/index.js:73-80 | Object (i, j, k) is visited exactly at `Position(i, j, k)`. |
| Graph.PositionOrder | src/index.js:73-80 | Positions increase with the lexicographic order of (subject, predicate, object index). |
| Parser.FirstTagOpen | src/index.js:32 | Returns the first `<` followed by an ASCII letter at or after `from`, or -1. |
| Parser.FirstTagOpenDecides | src/index.js:32 | Trying only the first `<letter` decides whether the regular expression matches anywhere. |
| Parser.LooksLikeMarkup | src/index.js:32 | `/<[a-z][\s\S]*>/i` matches iff some `<` is directly followed by an ASCII letter and a `>` comes somewhere after that letter. |
| Parser.ClassifyInput | src/index.js:21-40 | A node is used directly. A string is loaded as a URL iff `isUrl`, else as HTML iff it looks like markup, else as a file. `null` throws a TypeError. Anything else is refused with the fixed message. |
| Parser.BaseUriOverride | src/index.js:44-46 | `http://localhost/` is passed iff the node's base URI is missing, empty or `about:blank`. Otherwise no override is passed. The base the extraction sees is therefore always usable. |
| Parser.Process | src/index.js:42-56 | If the extraction throws, the result is that error and no dataset. Otherwise it is the normalized graph: one triple per object, the k-th triple being that of the k-th visited object; or the serialization/TypeError error of the first object that fails. |
| Parser.Parse | src/index.js:19-56 | The fixed invalid-data error occurs iff the data is neither node, string nor `null`. A load error occurs iff the string's source fails to load, and carries the loader's error unchanged. A node or a loaded document is processed. |

## Left out

- `jsdom.env` (URL fetch, file read, HTML parsing) is foreign I/O. It is the `load` parameter, which returns a document node or an error message.
- `getRDFaGraph` (RDFa attribute processing, CURIE and prefix expansion) is a foreign library. It is the `extract` parameter, and its subject map is the normalizer's input.
- `XMLSerializer.serializeToString` is a foreign call. It is the `ser` parameter, and `None` stands for a thrown exception.
- The `is-url` predicate is a foreign call. It is the `isUrl` parameter.
- The callback convention: `Parse` returns the value handed to the callback as a `Result`. A `Failure` means the callback gets an error and no dataset. The synchronous throw for `null` data is modelled as the `NullData` error.
- JavaScript's `for...in` reordering of integer-like keys: subjects and predicates are IRIs or blank-node identifiers, so the input order is taken as given. Duplicate keys, which a JavaScript object cannot hold, are not excluded.
- A language value that is not a string (JavaScript truthiness of other types) is not modelled. The language is absent or a string.
- src/browser/jsdom.js only throws or rejects, and test/test.js drives the parser through jsonld.js over HTTP. Neither contains logic of the core.
