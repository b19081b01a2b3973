/** `processGraph`: turns the subject -> predicate -> object map of an RDFa extraction
    into the triples of one `@default` graph, one triple per object, in the order the
    loops visit them. */
module Normalizer {
  import opened Wrappers
  import opened JsString
  import opened Dom
  import opened Graph
  import opened Rdf
  import opened Errors

  const BLANK_NODE_PREFIX: string := "_:"

  /** `id.indexOf('_:') === 0`. */
  predicate IsBlankNodeId(id: string)
    ensures IsBlankNodeId(id) <==> HasPrefix(id, BLANK_NODE_PREFIX)
  {
    IndexOfZeroIsPrefix(id, BLANK_NODE_PREFIX);
    IndexOf(id, BLANK_NODE_PREFIX) == 0
  }

  /** The term for a subject or predicate key. */
  function ClassifyTerm(id: string): (t: Term)
    ensures t.value == id
    ensures t.termType != Literal
    ensures t.termType == BlankNode <==> HasPrefix(id, BLANK_NODE_PREFIX)
  {
    if IsBlankNodeId(id) then Term(BlankNode, id) else Term(IRI, id)
  }

  /** What one node adds to an XML literal: the serialization of an element, the
      character data of a text node, nothing for any other node. `None` when the
      serializer throws. */
  function NodeText(n: DomNode, ser: Serializer): Option<string>
  {
    if n.nodeType == ELEMENT_NODE then ser(n)
    else if n.nodeType == TEXT_NODE then Some(n.nodeValue)
    else Some("")
  }

  /** The value of an XML literal: the texts of its nodes concatenated in order, or
      `None` when serializing one of them throws. */
  function XmlLiteralValue(ns: seq<DomNode>, ser: Serializer): (r: Option<string>)
    ensures r.None? <==> exists k :: 0 <= k < |ns| && NodeText(ns[k], ser).None?
    ensures ns == [] ==> r == Some("")
  {
    if ns == [] then Some("")
    else
      var first :- NodeText(ns[0], ser);
      var rest :- XmlLiteralValue(ns[1..], ser);
      assert forall k :: 1 <= k < |ns| ==> ns[1..][k - 1] == ns[k];
      Some(first + rest)
  }

  /** A single node's XML-literal value is what that node adds: the serialization of an
      element, the character data of a text node, nothing for any other node. */
  lemma XmlLiteralSingleton(n: DomNode, ser: Serializer)
    ensures n.nodeType == ELEMENT_NODE ==> XmlLiteralValue([n], ser) == ser(n)
    ensures n.nodeType == TEXT_NODE ==> XmlLiteralValue([n], ser) == Some(n.nodeValue)
    ensures n.nodeType != ELEMENT_NODE && n.nodeType != TEXT_NODE ==> XmlLiteralValue([n], ser) == Some("")
  {
    assert [n][1..] == [];
    var piece := NodeText(n, ser);
    if piece.Some? {
      assert piece.value + "" == piece.value;
    }
  }

  /** Concatenating node lists concatenates their XML-literal values; a failure in
      either part is a failure of the whole. */
  lemma {:induction false} XmlLiteralAppend(a: seq<DomNode>, b: seq<DomNode>, ser: Serializer)
    ensures XmlLiteralValue(a + b, ser)
         == if XmlLiteralValue(a, ser).Some? && XmlLiteralValue(b, ser).Some?
            then Some(XmlLiteralValue(a, ser).value + XmlLiteralValue(b, ser).value)
            else None
  {
    if a == [] {
      assert a + b == b;
      var tail := XmlLiteralValue(b, ser);
      if tail.Some? {
        assert "" + tail.value == tail.value;
      }
    } else {
      assert (a + b)[0] == a[0];
      assert (a + b)[1..] == a[1..] + b;
      XmlLiteralAppend(a[1..], b, ser);
      var first, rest, tail := NodeText(a[0], ser), XmlLiteralValue(a[1..], ser), XmlLiteralValue(b, ser);
      if first.Some? && rest.Some? && tail.Some? {
        assert first.value + (rest.value + tail.value) == (first.value + rest.value) + tail.value;
      }
    }
  }

  /** The nodes that contribute to an XML literal: elements and text nodes. */
  function ContributingNodes(ns: seq<DomNode>): (r: seq<DomNode>)
    ensures forall n :: n in r ==> n in ns && (n.nodeType == ELEMENT_NODE || n.nodeType == TEXT_NODE)
    ensures forall n :: n in ns && (n.nodeType == ELEMENT_NODE || n.nodeType == TEXT_NODE) ==> n in r
  {
    if ns == [] then []
    else if ns[0].nodeType == ELEMENT_NODE || ns[0].nodeType == TEXT_NODE then [ns[0]] + ContributingNodes(ns[1..])
    else ContributingNodes(ns[1..])
  }

  /** Nodes that are neither elements nor text add nothing to an XML literal. */
  lemma {:induction false} XmlLiteralIgnoresOtherNodes(ns: seq<DomNode>, ser: Serializer)
    ensures XmlLiteralValue(ns, ser) == XmlLiteralValue(ContributingNodes(ns), ser)
  {
    if ns != [] {
      XmlLiteralIgnoresOtherNodes(ns[1..], ser);
      if ns[0].nodeType == ELEMENT_NODE || ns[0].nodeType == TEXT_NODE {
        var rest := ContributingNodes(ns[1..]);
        assert ([ns[0]] + rest)[0] == ns[0];
        assert ([ns[0]] + rest)[1..] == rest;
      } else {
        assert NodeText(ns[0], ser) == Some("");
        var rest := XmlLiteralValue(ns[1..], ser);
        if rest.Some? {
          assert "" + rest.value == rest.value;
        }
      }
    }
  }

  /** The "serialize XML literal" step: the node list of an `rdf:XMLLiteral` object
      becomes the string of its nodes; any other value is kept as it is. A string value
      of an XML literal is walked character by character, and characters are not nodes,
      so it yields the empty string. */
  function SerializedValue(o: RdfaObject, ser: Serializer): Result<ObjectValue, Error>
  {
    if o.objectType == RDF_XML_LITERAL then
      match o.value
      case Text(_) => Success(Text(""))
      case Nodes(ns) =>
        match XmlLiteralValue(ns, ser)
        case Some(v) => Success(Text(v))
        case None => Failure(SerializationFailed)
    else Success(o.value)
  }

  /** A language field that JavaScript considers true: present and non-empty. */
  predicate IsTruthy(language: Option<string>) {
    language.Some? && language.value != ""
  }

  /** The object term of one RDFa object. */
  function ConvertObject(o: RdfaObject, ser: Serializer): (r: Result<ObjectTerm, Error>)
    ensures r.Success? ==> WellFormedObject(r.value)
    ensures r.Success? ==> (r.value.termType == Literal <==> o.objectType != RDF_OBJECT)
    ensures r.Failure? ==> r.error == SerializationFailed || r.error == ValueNotString
    // a resource: blank node exactly when the identifier starts with `_:`
    ensures o.objectType == RDF_OBJECT ==>
      match o.value
      case Text(id) =>
        r == Success(ObjectTerm(if HasPrefix(id, BLANK_NODE_PREFIX) then BlankNode else IRI, Text(id), None, None))
      case Nodes(_) => r == Failure(ValueNotString)
    // a plain literal: language string exactly when the language is non-empty
    ensures o.objectType == RDF_PLAIN_LITERAL ==> r.Success?
    ensures o.objectType == RDF_PLAIN_LITERAL && r.Success? ==>
      (r.value.language.Some? <==> IsTruthy(o.language))
    ensures o.objectType == RDF_PLAIN_LITERAL && r.Success? && r.value.language.Some? ==>
      r.value.language == o.language && r.value.datatypeIri == Some(RDF_LANGSTRING)
    ensures o.objectType == RDF_PLAIN_LITERAL && r.Success? && r.value.language.None? ==>
      r.value.datatypeIri == Some(XSD_STRING)
    // any other type is itself the datatype
    ensures o.objectType != RDF_OBJECT && o.objectType != RDF_PLAIN_LITERAL && r.Success? ==>
      r.value.datatypeIri == Some(o.objectType) && r.value.language.None?
    // the value is kept, except that an XML literal's nodes are serialized
    ensures o.objectType != RDF_XML_LITERAL && o.objectType != RDF_OBJECT ==> r.Success?
    ensures o.objectType != RDF_XML_LITERAL && r.Success? ==> r.value.value == o.value
    ensures o.objectType == RDF_XML_LITERAL ==>
      match o.value
      case Text(_) => r == Success(ObjectTerm(Literal, Text(""), Some(RDF_XML_LITERAL), None))
      case Nodes(ns) =>
        && (r.Success? <==> XmlLiteralValue(ns, ser).Some?)
        && (r.Success? ==> r.value.value == Text(XmlLiteralValue(ns, ser).value))
        && (r.Failure? ==> r.error == SerializationFailed)
  {
    var value :- SerializedValue(o, ser);
    if o.objectType == RDF_OBJECT then
      match value
      case Text(id) => Success(ObjectTerm(if IsBlankNodeId(id) then BlankNode else IRI, value, None, None))
      case Nodes(_) => Failure(ValueNotString)
    else if o.objectType == RDF_PLAIN_LITERAL then
      if IsTruthy(o.language) then Success(ObjectTerm(Literal, value, Some(RDF_LANGSTRING), o.language))
      else Success(ObjectTerm(Literal, value, Some(XSD_STRING), None))
    else
      Success(ObjectTerm(Literal, value, Some(o.objectType), None))
  }

  /** The triple for one visit of the innermost loop. */
  function MakeTriple(e: Entry, ser: Serializer): (r: Result<Triple, Error>)
    ensures r.Success? <==> ConvertObject(e.rdfaObject, ser).Success?
    ensures r.Failure? ==> r.error == ConvertObject(e.rdfaObject, ser).error
    ensures r.Success? ==> WellFormedTriple(r.value)
    ensures r.Success? ==> r.value.objectTerm == ConvertObject(e.rdfaObject, ser).value
    ensures r.Success? ==> r.value.subject.value == e.subjectId && r.value.property.value == e.predicateId
    ensures r.Success? ==> (r.value.subject.termType == BlankNode <==> HasPrefix(e.subjectId, BLANK_NODE_PREFIX))
    ensures r.Success? ==> (r.value.property.termType == BlankNode <==> HasPrefix(e.predicateId, BLANK_NODE_PREFIX))
  {
    var objectTerm :- ConvertObject(e.rdfaObject, ser);
    Success(Triple(ClassifyTerm(e.subjectId), ClassifyTerm(e.predicateId), objectTerm))
  }

  /** The triples of a sequence of visits, stopping at the first one that throws. */
  function ConvertEntries(es: seq<Entry>, ser: Serializer): (r: Result<seq<Triple>, Error>)
    ensures r.Success? <==> forall k :: 0 <= k < |es| ==> MakeTriple(es[k], ser).Success?
    ensures r.Success? ==> |r.value| == |es|
    ensures r.Success? ==> forall k :: 0 <= k < |es| ==> r.value[k] == MakeTriple(es[k], ser).value
    ensures r.Failure? ==>
      exists k :: 0 <= k < |es| && MakeTriple(es[k], ser) == Failure(r.error)
        && forall m :: 0 <= m < k ==> MakeTriple(es[m], ser).Success?
  {
    if es == [] then Success([])
    else
      var t :- MakeTriple(es[0], ser);
      var rest :- ConvertEntries(es[1..], ser);
      assert forall k :: 1 <= k < |es| ==> es[1..][k - 1] == es[k];
      Success([t] + rest)
  }

  /** Two runs one after the other: the first failure wins, otherwise the triples of
      the first run come before those of the second. */
  function Then(a: Result<seq<Triple>, Error>, b: Result<seq<Triple>, Error>): Result<seq<Triple>, Error>
  {
    if a.Failure? then a
    else if b.Failure? then b
    else Success(a.value + b.value)
  }

  /** Converting `a + b` converts `a`, then `b`. */
  lemma {:induction false} ConvertEntriesAppend(a: seq<Entry>, b: seq<Entry>, ser: Serializer)
    ensures ConvertEntries(a + b, ser) == Then(ConvertEntries(a, ser), ConvertEntries(b, ser))
  {
    if a == [] {
      assert a + b == b;
      var tail := ConvertEntries(b, ser);
      if tail.Success? {
        assert [] + tail.value == tail.value;
      }
    } else {
      assert (a + b)[0] == a[0];
      assert (a + b)[1..] == a[1..] + b;
      ConvertEntriesAppend(a[1..], b, ser);
      var t, rest, tail := MakeTriple(a[0], ser), ConvertEntries(a[1..], ser), ConvertEntries(b, ser);
      if t.Success? && rest.Success? && tail.Success? {
        assert [t.value] + (rest.value + tail.value) == ([t.value] + rest.value) + tail.value;
      }
    }
  }

  /** The object loop: `for (oi = 0; oi < objects.length; ++oi)`. */
  function ObjectTriples(s: string, p: string, objs: ObjectList, ser: Serializer): Result<seq<Triple>, Error>
  {
    if objs == [] then Success([])
    else
      var t :- MakeTriple(Entry(s, p, objs[0]), ser);
      var rest :- ObjectTriples(s, p, objs[1..], ser);
      Success([t] + rest)
  }

  /** The predicate loop: `for (predicate in predicates)`. */
  function PredicateTriples(s: string, preds: PredicateMap, ser: Serializer): Result<seq<Triple>, Error>
  {
    if preds == [] then Success([])
    else
      var first :- ObjectTriples(s, preds[0].0, preds[0].1, ser);
      var rest :- PredicateTriples(s, preds[1..], ser);
      Success(first + rest)
  }

  /** The subject loop: `for (subject in subjects)`. */
  function SubjectTriples(g: SubjectMap, ser: Serializer): Result<seq<Triple>, Error>
  {
    if g == [] then Success([])
    else
      var first :- PredicateTriples(g[0].0, g[0].1, ser);
      var rest :- SubjectTriples(g[1..], ser);
      Success(first + rest)
  }

  lemma {:induction false} ObjectTriplesConvertEntries(s: string, p: string, objs: ObjectList, ser: Serializer)
    ensures ObjectTriples(s, p, objs, ser) == ConvertEntries(ObjectEntries(s, p, objs), ser)
  {
    if objs != [] {
      ObjectTriplesConvertEntries(s, p, objs[1..], ser);
      var es := ObjectEntries(s, p, objs);
      assert es[0] == Entry(s, p, objs[0]);
      assert es[1..] == ObjectEntries(s, p, objs[1..]);
    }
  }

  lemma {:induction false} PredicateTriplesConvertEntries(s: string, preds: PredicateMap, ser: Serializer)
    ensures PredicateTriples(s, preds, ser) == ConvertEntries(PredicateEntries(s, preds), ser)
  {
    if preds != [] {
      ObjectTriplesConvertEntries(s, preds[0].0, preds[0].1, ser);
      PredicateTriplesConvertEntries(s, preds[1..], ser);
      ConvertEntriesAppend(ObjectEntries(s, preds[0].0, preds[0].1), PredicateEntries(s, preds[1..]), ser);
    }
  }

  /** The three nested loops convert the visits of `Flatten`, in that order. */
  lemma {:induction false} SubjectTriplesConvertEntries(g: SubjectMap, ser: Serializer)
    ensures SubjectTriples(g, ser) == ConvertEntries(Flatten(g), ser)
  {
    if g != [] {
      PredicateTriplesConvertEntries(g[0].0, g[0].1, ser);
      SubjectTriplesConvertEntries(g[1..], ser);
      ConvertEntriesAppend(PredicateEntries(g[0].0, g[0].1), Flatten(g[1..]), ser);
    }
  }

  /** `processGraph`: one well-formed triple per object of the graph, in visiting order,
      or the error of the first object whose conversion throws. */
  function ProcessGraph(g: SubjectMap, ser: Serializer): (r: Result<Dataset, Error>)
    ensures r.Success? <==> forall k :: 0 <= k < |Flatten(g)| ==> MakeTriple(Flatten(g)[k], ser).Success?
    ensures r.Success? ==> |r.value.defaultGraph| == ObjectCount(g)
    ensures r.Success? ==>
      forall k :: 0 <= k < |Flatten(g)| ==> r.value.defaultGraph[k] == MakeTriple(Flatten(g)[k], ser).value
    ensures r.Success? ==> forall t :: t in r.value.defaultGraph ==> WellFormedTriple(t)
    ensures r.Failure? ==>
      exists k :: 0 <= k < |Flatten(g)| && MakeTriple(Flatten(g)[k], ser) == Failure(r.error)
        && forall m :: 0 <= m < k ==> MakeTriple(Flatten(g)[m], ser).Success?
    ensures r.Failure? ==> r.error == SerializationFailed || r.error == ValueNotString
    ensures ObjectCount(g) == 0 ==> r == Success(Dataset([]))
  {
    SubjectTriplesConvertEntries(g, ser);
    match SubjectTriples(g, ser)
    case Success(triples) => Success(Dataset(triples))
    case Failure(e) => Failure(e)
  }

  /** The triple of object `(i, j, k)` sits at that object's position in the dataset;
      with `PositionOrder`, triples follow subject, then predicate, then object order. */
  lemma TripleAtPosition(g: SubjectMap, ser: Serializer, i: int, j: int, k: int)
    requires ValidPosition(g, i, j, k)
    requires ProcessGraph(g, ser).Success?
    ensures Position(g, i, j, k) < |ProcessGraph(g, ser).value.defaultGraph|
    ensures MakeTriple(EntryAt(g, i, j, k), ser).Success?
    ensures ProcessGraph(g, ser).value.defaultGraph[Position(g, i, j, k)] == MakeTriple(EntryAt(g, i, j, k), ser).value
  {
    FlattenPosition(g, i, j, k);
  }

  /** Processing two graphs' subjects in a row yields the first graph's triples followed
      by the second's: nothing is reordered or merged across subjects. */
  lemma ProcessGraphAppend(a: SubjectMap, b: SubjectMap, ser: Serializer)
    requires ProcessGraph(a, ser).Success? && ProcessGraph(b, ser).Success?
    ensures ProcessGraph(a + b, ser)
         == Success(Dataset(ProcessGraph(a, ser).value.defaultGraph + ProcessGraph(b, ser).value.defaultGraph))
  {
    SubjectTriplesConvertEntries(a, ser);
    SubjectTriplesConvertEntries(b, ser);
    SubjectTriplesConvertEntries(a + b, ser);
    FlattenAppend(a, b);
    ConvertEntriesAppend(Flatten(a), Flatten(b), ser);
  }

  /** An object listed twice under the same subject and predicate yields two equal
      triples at two different positions: the output is never deduplicated. */
  lemma DuplicatesKept(g: SubjectMap, ser: Serializer, i: int, j: int, k: int, k': int)
    requires ValidPosition(g, i, j, k) && ValidPosition(g, i, j, k')
    requires k < k' && g[i].1[j].1[k] == g[i].1[j].1[k']
    requires ProcessGraph(g, ser).Success?
    ensures Position(g, i, j, k) != Position(g, i, j, k')
    ensures Position(g, i, j, k') < |ProcessGraph(g, ser).value.defaultGraph|
    ensures ProcessGraph(g, ser).value.defaultGraph[Position(g, i, j, k)]
         == ProcessGraph(g, ser).value.defaultGraph[Position(g, i, j, k')]
  {
    TripleAtPosition(g, ser, i, j, k);
    TripleAtPosition(g, ser, i, j, k');
  }
}
