/** The RDF vocabulary the normalizer uses and the triples it produces. */
module Rdf {
  import opened Wrappers
  import opened Graph

  const RDF_XML_LITERAL: string := "http://www.w3.org/1999/02/22-rdf-syntax-ns#XMLLiteral"
  /** The type the RDFa processor gives an object that denotes a resource. */
  const RDF_OBJECT: string := "http://www.w3.org/1999/02/22-rdf-syntax-ns#object"
  const RDF_PLAIN_LITERAL: string := "http://www.w3.org/1999/02/22-rdf-syntax-ns#PlainLiteral"
  const RDF_LANGSTRING: string := "http://www.w3.org/1999/02/22-rdf-syntax-ns#langString"
  const XSD_STRING: string := "http://www.w3.org/2001/XMLSchema#string"

  /** The `type` of an output term: `'IRI'`, `'blank node'` or `'literal'`. */
  datatype TermType = IRI | BlankNode | Literal

  /** A subject or predicate term. */
  datatype Term = Term(termType: TermType, value: string)

  /** An object term. Its value is the RDFa object's value, unless the normalizer
      serialized it; `datatypeIri` and `language` stand for fields that may be absent. */
  datatype ObjectTerm = ObjectTerm(termType: TermType, value: ObjectValue, datatypeIri: Option<string>, language: Option<string>)

  datatype Triple = Triple(subject: Term, property: Term, objectTerm: ObjectTerm)

  /** The dataset returned by the normalizer: the triples of the `@default` graph. */
  datatype Dataset = Dataset(defaultGraph: seq<Triple>)

  /** An IRI or blank-node object has neither datatype nor language; a literal always has
      a datatype, and has a (non-empty) language only with the `rdf:langString` datatype. */
  predicate WellFormedObject(o: ObjectTerm) {
    if o.termType == Literal then
      && o.datatypeIri.Some?
      && (o.language.Some? ==> o.datatypeIri == Some(RDF_LANGSTRING) && o.language.value != "")
    else
      o.datatypeIri.None? && o.language.None? && o.value.Text?
  }

  /** Subjects and predicates are never literals, and the object is well formed. */
  predicate WellFormedTriple(t: Triple) {
    t.subject.termType != Literal && t.property.termType != Literal && WellFormedObject(t.objectTerm)
  }
}
