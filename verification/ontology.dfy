/** The subclass sets of `get_ICE_classes` and `get_temporal_region_classes`
    (maptomethod.py:108-128): the Common Core merged ontology and the MSEO
    mid-level ontology are parsed into one graph, which is then asked for
    every class that is `rdfs:subClassOf*` a fixed parent. */
module Ontology {
  import opened Wrappers
  import opened Rdf
  import opened Errors
  import SubClass

  /** The `rdfs:subClassOf` triples of a graph, as (subclass, superclass) edges. */
  function SubClassEdges(g: Graph): (r: SubClass.Edges<Term>)
    ensures forall c, p :: (c, p) in r <==> Triple(c, SubClassOf, p) in g
  {
    set t | t in g && t.pred == SubClassOf :: (t.subj, t.obj)
  }

  /** `c rdfs:subClassOf* p` holds in graph `g`. */
  ghost predicate SubClassIn(g: Graph, c: Term, p: Term) {
    SubClass.Reaches(SubClassEdges(g), c, p)
  }

  /** Parsing both ontology documents into one graph: the first failure is raised,
      otherwise the graph holds the triples of both. */
  function LoadOntology(cco: Parsed, mseo: Parsed): (r: Result<Graph, Exception>)
    ensures cco.Failure? ==> r == Failure(ParseError(cco.error))
    ensures cco.Success? && mseo.Failure? ==> r == Failure(ParseError(mseo.error))
    ensures r.Success? ==> cco.Success? && mseo.Success?
    ensures r.Success? ==> forall t :: t in r.value <==> t in cco.value || t in mseo.value
  {
    match cco
    case Failure(msg) => Failure(ParseError(msg))
    case Success(g1) =>
      match mseo
      case Failure(msg) => Failure(ParseError(msg))
      case Success(g2) => Success(g1 + g2)
  }

  /** The classes `subClassOf*` `parent` in the loaded ontology: the query result
      holds `parent` itself and every class with a subclass chain up to it. */
  function ClassesUnder(cco: Parsed, mseo: Parsed, parent: Term): (r: Result<set<Term>, Exception>)
    ensures r.Failure? <==> LoadOntology(cco, mseo).Failure?
    ensures r.Failure? ==> r.error == LoadOntology(cco, mseo).error
    ensures r.Success? ==> parent in r.value
    ensures r.Success? ==> forall c :: c in r.value <==> SubClassIn(LoadOntology(cco, mseo).value, c, parent)
  {
    match LoadOntology(cco, mseo)
    case Failure(e) => Failure(e)
    case Success(g) => Success(SubClass.Closure(SubClassEdges(g), parent))
  }

  /** `get_ICE_classes` */
  function IceClasses(cco: Parsed, mseo: Parsed): (r: Result<set<Term>, Exception>)
    ensures r.Success? <==> LoadOntology(cco, mseo).Success?
    ensures r.Success? ==> forall c :: c in r.value <==>
      SubClassIn(LoadOntology(cco, mseo).value, c, InformationContentEntity)
  {
    ClassesUnder(cco, mseo, InformationContentEntity)
  }

  /** `get_temporal_region_classes` */
  function TemporalRegionClasses(cco: Parsed, mseo: Parsed): (r: Result<set<Term>, Exception>)
    ensures r.Success? <==> LoadOntology(cco, mseo).Success?
    ensures r.Success? ==> forall c :: c in r.value <==>
      SubClassIn(LoadOntology(cco, mseo).value, c, TemporalRegion)
  {
    ClassesUnder(cco, mseo, TemporalRegion)
  }
}
