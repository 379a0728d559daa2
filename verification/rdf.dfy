/** RDF terms, triples and the vocabulary maptomethod.py refers to. */
module Rdf {
  import opened Wrappers

  /** An rdflib node. Equality is type-sensitive, as in rdflib: a literal never
      equals an IRI that has the same text. `text` is what `str()` gives. */
  datatype Term = Iri(text: string) | BNode(text: string) | Literal(text: string)

  datatype Triple = Triple(subj: Term, pred: Term, obj: Term)

  /** A parsed graph. The order is the one in which the store answers the
      pattern `(None, rdf:type, None)`: rdflib's memory store groups that answer
      by class, so "later" means later in that answer, not in the document. */
  type Graph = seq<Triple>

  /** What parsing a document gave: a graph, or the parser's error message.
      Fetching and parsing are foreign calls, so their outcome is an input here. */
  type Parsed = Result<Graph, string>

  const RdfNs: string := "http://www.w3.org/1999/02/22-rdf-syntax-ns#"
  const RdfsNs: string := "http://www.w3.org/2000/01/rdf-schema#"
  const CcoNs: string := "http://www.ontologyrepository.com/CommonCoreOntologies/"
  const CsvwNs: string := "http://www.w3.org/ns/csvw#"
  const OboNs: string := "http://purl.obolibrary.org/obo/"

  const RdfType: Term := Iri(RdfNs + "type")
  const SubClassOf: Term := Iri(RdfsNs + "subClassOf")

  /** The two classes the data side extracts. */
  const InformationLine: Term := Iri(CcoNs + "InformationLine")
  const Column: Term := Iri(CsvwNs + "Column")

  /** The two parents whose subclasses the method side extracts. */
  const InformationContentEntity: Term := Iri(CcoNs + "InformationContentEntity")
  const TemporalRegion: Term := Iri(OboNs + "BFO_0000008")
}
