/** `jsonldRdfaParser` and its inner `process`: decide how to obtain a DOM from the
    `data` argument, run the RDFa extraction with a usable base URI, and normalize the
    extracted graph. The foreign steps are parameters:
    - `isUrl`: the `is-url` predicate;
    - `load`: `jsdom.env`, which fetches, reads or parses a source into a document;
    - `extract`: `getRDFaGraph`, which extracts the subject map, or throws;
    - `ser`: `XMLSerializer.serializeToString`. */
module Parser {
  import opened Wrappers
  import opened JsString
  import opened Dom
  import opened Graph
  import opened Rdf
  import opened Errors
  import opened Normalizer

  const DEFAULT_BASE_URI: string := "http://localhost/"
  const ABOUT_BLANK: string := "about:blank"

  /** The `data` argument, by its JavaScript kind. */
  datatype Data =
    | NodeObject(node: DomNode)   // an object with a `nodeType` property
    | Str(text: string)
    | Null
    | OtherValue                  // a number, boolean, function, `undefined`, or an object without `nodeType`

  /** The `jsdom.env` configuration key a string is passed under. */
  datatype LoadKind = Url | Html | File

  /** Where the DOM comes from. */
  datatype Source = FromNode(node: DomNode) | Load(kind: LoadKind, location: string)

  /** An ASCII letter, as matched by the character class `[a-z]` under the `i` flag
      (without the `u` flag no other character folds onto one). */
  predicate IsAsciiLetter(c: char) {
    ('a' <= c <= 'z') || ('A' <= c <= 'Z')
  }

  /** A `<` followed by an ASCII letter starts at index `i`. */
  predicate TagOpenAt(s: string, i: int) {
    0 <= i && i + 1 < |s| && s[i] == '<' && IsAsciiLetter(s[i + 1])
  }

  /** `/<[a-z][\s\S]*>/i` can match `s` from index `i` to the `>` at index `j`. */
  predicate MarkupMatchAt(s: string, i: int, j: int) {
    TagOpenAt(s, i) && i + 2 <= j < |s| && s[j] == '>'
  }

  /** The first index at or after `from` where a `<letter` starts, or -1. */
  function FirstTagOpen(s: string, from: nat): (r: int)
    ensures r == -1 || (from <= r && TagOpenAt(s, r))
    ensures forall i :: from <= i && (r == -1 || i < r) ==> !TagOpenAt(s, i)
    decreases |s| - from
  {
    if from + 1 >= |s| then -1
    else if s[from] == '<' && IsAsciiLetter(s[from + 1]) then from
    else FirstTagOpen(s, from + 1)
  }

  /** Only the first `<letter` needs to be tried: any `>` that closes a later one also
      closes the first. */
  lemma FirstTagOpenDecides(s: string)
    ensures var i := FirstTagOpen(s, 0);
      (i >= 0 && '>' in s[i + 2..]) <==> exists a, b :: MarkupMatchAt(s, a, b)
  {
    var i := FirstTagOpen(s, 0);
    if i >= 0 && '>' in s[i + 2..] {
      var m :| 0 <= m < |s[i + 2..]| && s[i + 2..][m] == '>';
      assert MarkupMatchAt(s, i, i + 2 + m);
    }
    if exists a, b :: MarkupMatchAt(s, a, b) {
      var a, b :| MarkupMatchAt(s, a, b);
      assert i >= 0 && i <= a;
      assert s[i + 2..][b - i - 2] == '>';
    }
  }

  /** `/<[a-z][\s\S]*>/i.test(s)`: a `<` immediately followed by an ASCII letter, with a
      `>` somewhere after the letter. */
  predicate LooksLikeMarkup(s: string)
    ensures LooksLikeMarkup(s) <==> exists i, j :: MarkupMatchAt(s, i, j)
  {
    FirstTagOpenDecides(s);
    var i := FirstTagOpen(s, 0);
    i >= 0 && '>' in s[i + 2..]
  }

  /** How `jsonldRdfaParser` obtains a DOM: a node is used as it is; a string is
      loaded as a URL, else as HTML when it looks like markup, else as a file path;
      anything else is refused. */
  function ClassifyInput(data: Data, isUrl: string -> bool): (r: Result<Source, Error>)
    ensures data.NodeObject? ==> r == Success(FromNode(data.node))
    ensures data.Str? ==> r.Success? && r.value.Load? && r.value.location == data.text
    ensures data.Str? ==> (r.value.kind == Url <==> isUrl(data.text))
    ensures data.Str? ==> (r.value.kind == Html <==> !isUrl(data.text) && exists i, j :: MarkupMatchAt(data.text, i, j))
    ensures data.Null? ==> r == Failure(NullData)
    ensures data.OtherValue? ==> r == Failure(InvalidData(INVALID_DATA_MESSAGE))
  {
    match data
    case NodeObject(node) => Success(FromNode(node))
    case Str(text) =>
      if isUrl(text) then Success(Load(Url, text))
      else if LooksLikeMarkup(text) then Success(Load(Html, text))
      else Success(Load(File, text))
    case Null => Failure(NullData)
    case OtherValue => Failure(InvalidData(INVALID_DATA_MESSAGE))
  }

  /** A base URI the RDFa extraction can resolve against: not empty and not `about:blank`. */
  predicate IsUsableBase(base: string) {
    base != "" && base != ABOUT_BLANK
  }

  /** The `baseURI` option passed to the extraction: `http://localhost/` when the node's
      own base URI is missing, empty or `about:blank`, and no option otherwise. */
  function BaseUriOverride(node: DomNode): (r: Option<string>)
    ensures r.Some? ==> r.value == DEFAULT_BASE_URI && IsUsableBase(r.value)
    ensures r.None? <==> node.baseUri.Some? && IsUsableBase(node.baseUri.value)
  {
    if node.baseUri.None? || node.baseUri.value == "" || node.baseUri.value == ABOUT_BLANK then
      Some(DEFAULT_BASE_URI)
    else
      None
  }

  /** `process(node)`: extraction with the base-URI fallback, then normalization. An
      exception from either step is the invocation's error and no dataset is returned. */
  function Process(node: DomNode, extract: (DomNode, Option<string>) -> Result<SubjectMap, string>, ser: Serializer)
    : (r: Result<Dataset, Error>)
    ensures extract(node, BaseUriOverride(node)).Failure? ==>
      r == Failure(ExtractionFailed(extract(node, BaseUriOverride(node)).error))
    ensures extract(node, BaseUriOverride(node)).Success? ==>
      var g := extract(node, BaseUriOverride(node)).value;
      && (r.Success? <==> forall k :: 0 <= k < |Flatten(g)| ==> MakeTriple(Flatten(g)[k], ser).Success?)
      && (r.Success? ==> |r.value.defaultGraph| == ObjectCount(g))
      && (r.Success? ==>
            forall k :: 0 <= k < |Flatten(g)| ==> r.value.defaultGraph[k] == MakeTriple(Flatten(g)[k], ser).value)
      && (r.Failure? ==>
            exists k :: 0 <= k < |Flatten(g)| && MakeTriple(Flatten(g)[k], ser) == Failure(r.error)
              && forall m :: 0 <= m < k ==> MakeTriple(Flatten(g)[m], ser).Success?)
      && (r.Failure? ==> r.error == SerializationFailed || r.error == ValueNotString)
  {
    match extract(node, BaseUriOverride(node))
    case Failure(e) => Failure(ExtractionFailed(e))
    case Success(g) =>
      var r := ProcessGraph(g, ser);
      assert r.Success? <==> forall k :: 0 <= k < |Flatten(g)| ==> MakeTriple(Flatten(g)[k], ser).Success?;
      r
  }

  /** `jsonldRdfaParser(data, callback)`: the outcome handed to the callback. */
  function Parse(data: Data, isUrl: string -> bool, load: Source -> Result<DomNode, string>,
                 extract: (DomNode, Option<string>) -> Result<SubjectMap, string>, ser: Serializer)
    : (r: Result<Dataset, Error>)
    ensures r == Failure(InvalidData(INVALID_DATA_MESSAGE)) <==> data.OtherValue?
    ensures r == Failure(NullData) <==> data.Null?
    ensures r.Failure? && r.error.ResolveFailed? <==> data.Str? && load(ClassifyInput(data, isUrl).value).Failure?
    ensures data.Str? && load(ClassifyInput(data, isUrl).value).Failure? ==>
      r == Failure(ResolveFailed(load(ClassifyInput(data, isUrl).value).error))
    ensures data.NodeObject? ==> r == Process(data.node, extract, ser)
    ensures data.Str? && load(ClassifyInput(data, isUrl).value).Success? ==>
      r == Process(load(ClassifyInput(data, isUrl).value).value, extract, ser)
  {
    var source :- ClassifyInput(data, isUrl);
    match source
    case FromNode(node) => Process(node, extract, ser)
    case Load(_, _) =>
      match load(source)
      case Failure(e) => Failure(ResolveFailed(e))
      case Success(document) => Process(document, extract, ser)
  }
}
