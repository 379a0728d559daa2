/** Type-filtered entity extraction (maptomethod.py:59-70 and 130-147): every
    subject with an `rdf:type` triple whose class is in a filter, keyed by its
    short id in a dict built by comprehension. */
module Entities {
  import opened Wrappers
  import opened Rdf
  import opened Errors
  import opened PyStr
  import opened PyDict
  import Ontology

  /** `s.split('/')[-1]`: the short id a subject is keyed by. */
  function ShortId(s: Term): string {
    LastSegment(s.text, '/')
  }

  /** Graph `g` types `s` with a class in `classes`. */
  ghost predicate TypedIn(g: Graph, s: Term, classes: set<Term>) {
    exists t :: t in g && t.subj == s && t.pred == RdfType && t.obj in classes
  }

  /** The dict item triple `t` contributes to the comprehension, if any. */
  function EntityItem(classes: set<Term>, t: Triple): (r: Option<(string, Term)>)
    ensures r.Some? <==> TypedIn([t], t.subj, classes)
    ensures r.Some? ==> r.value.1 == t.subj && r.value.0 == ShortId(t.subj)
  {
    if t.pred == RdfType && t.obj in classes then Some((ShortId(t.subj), t.subj)) else None
  }

  /** The comprehension's item function for a class filter. */
  function ItemFn(classes: set<Term>): Triple -> Option<(string, Term)> {
    t => EntityItem(classes, t)
  }

  /** `{s.split('/')[-1]: s for s, p, o in g.triples((None, RDF.type, None)) if o in classes}` */
  function Extract(g: Graph, classes: set<Term>): (r: Dict<string, Term>)
    ensures UniqueKeys(r)
    ensures forall i :: 0 <= i < |r| ==> r[i].0 == ShortId(r[i].1)
    ensures forall i :: 0 <= i < |r| ==> TypedIn(g, r[i].1, classes)
    ensures forall s :: TypedIn(g, s, classes) ==> HasKey(r, ShortId(s))
  {
    var f := ItemFn(classes);
    var r := Collect(g, f);
    CollectEntries(g, f);
    CollectCovers(g, f);
    assert forall i :: 0 <= i < |r| ==> r[i].0 == ShortId(r[i].1) && TypedIn(g, r[i].1, classes) by {
      forall i | 0 <= i < |r| ensures r[i].0 == ShortId(r[i].1) && TypedIn(g, r[i].1, classes) {
        assert LastFor(g, f, r[i]);
        var j :| 0 <= j < |g| && f(g[j]) == Some(r[i]) && NoLaterKey(g, f, j, r[i].0);
        assert g[j] in g;
      }
    }
    assert forall s :: TypedIn(g, s, classes) ==> HasKey(r, ShortId(s)) by {
      forall s | TypedIn(g, s, classes) ensures HasKey(r, ShortId(s)) {
        var t :| t in g && t.subj == s && t.pred == RdfType && t.obj in classes;
        var j :| 0 <= j < |g| && g[j] == t;
        assert f(g[j]).Some?;
      }
    }
    r
  }

  /** Triple `j` types its subject with a filter class, and no later such triple
      gives a subject with the same short id. */
  ghost predicate LastWithShortId(g: Graph, classes: set<Term>, j: nat) {
    && j < |g|
    && EntityItem(classes, g[j]).Some?
    && forall j' :: j < j' < |g| && EntityItem(classes, g[j']).Some? ==>
         ShortId(g[j'].subj) != ShortId(g[j].subj)
  }

  /** On a short-id collision the subject seen last in iteration order is kept. */
  lemma LaterSubjectWins(g: Graph, classes: set<Term>, j: nat)
    requires LastWithShortId(g, classes, j)
    ensures Get(Extract(g, classes), ShortId(g[j].subj)) == Some(g[j].subj)
  {
    var f := ItemFn(classes);
    var k := ShortId(g[j].subj);
    assert f(g[j]) == Some((k, g[j].subj));
    assert NoLaterKey(g, f, j, k) by {
      forall j' | j < j' < |g| ensures !Yields(f(g[j']), k) {
        assert f(g[j']) == EntityItem(classes, g[j']);
      }
    }
    CollectLastWins(g, f, j);
  }

  /** On a short-id collision the subject seen earlier is dropped. */
  lemma EarlierSubjectDropped(g: Graph, classes: set<Term>, j: nat, s: Term)
    requires LastWithShortId(g, classes, j)
    requires s != g[j].subj && ShortId(s) == ShortId(g[j].subj)
    ensures forall i :: 0 <= i < |Extract(g, classes)| ==> Extract(g, classes)[i].1 != s
  {
    LaterSubjectWins(g, classes, j);
  }

  /** Short ids tell the typed subjects apart. */
  ghost predicate ShortIdsDistinct(g: Graph, classes: set<Term>) {
    forall s1, s2 :: TypedIn(g, s1, classes) && TypedIn(g, s2, classes) && ShortId(s1) == ShortId(s2) ==> s1 == s2
  }

  /** Without a short-id collision nothing is lost: the values are exactly the typed subjects. */
  lemma NoCollisionKeepsAll(g: Graph, classes: set<Term>)
    requires ShortIdsDistinct(g, classes)
    ensures forall s :: TypedIn(g, s, classes) <==>
      exists i :: 0 <= i < |Extract(g, classes)| && Extract(g, classes)[i].1 == s
  {
    var r := Extract(g, classes);
    forall s | TypedIn(g, s, classes) ensures exists i :: 0 <= i < |r| && r[i].1 == s {
      KeptWithoutCollision(g, classes, s);
    }
  }

  /** One typed subject survives when no other typed subject shares its short id. */
  lemma KeptWithoutCollision(g: Graph, classes: set<Term>, s: Term)
    requires TypedIn(g, s, classes)
    requires forall s2 :: TypedIn(g, s2, classes) && ShortId(s2) == ShortId(s) ==> s2 == s
    ensures exists i :: 0 <= i < |Extract(g, classes)| && Extract(g, classes)[i].1 == s
  {
    var r := Extract(g, classes);
    var k := ShortId(s);
    assert HasKey(r, k);
    var i :| 0 <= i < |r| && r[i].0 == k;
    var t := r[i].1;
    assert TypedIn(g, t, classes) && ShortId(t) == k;
    assert t == s;
  }

  /** The two classes the data side extracts. */
  const DataClasses: set<Term> := {InformationLine, Column}

  /** Module-level `get_data_Info`: a parse failure propagates; otherwise the
      information lines and CSVW columns of the document, by short id. */
  function DataInfo(data: Parsed): (r: Result<Dict<string, Term>, Exception>)
    ensures data.Failure? ==> r == Failure(ParseError(data.error))
    ensures data.Success? ==> r.Success? && UniqueKeys(r.value)
    ensures data.Success? ==> forall i :: 0 <= i < |r.value| ==>
      r.value[i].0 == ShortId(r.value[i].1) && TypedIn(data.value, r.value[i].1, DataClasses)
    ensures data.Success? ==> forall s :: TypedIn(data.value, s, DataClasses) ==> HasKey(r.value, ShortId(s))
  {
    match data
    case Failure(msg) => Failure(ParseError(msg))
    case Success(g) => Success(Extract(g, DataClasses))
  }

  /** A subject typed with neither data class never reaches the data-side dict. */
  lemma DataInfoExcludesOtherTypes(g: Graph, s: Term)
    requires forall t :: t in g && t.subj == s && t.pred == RdfType ==> t.obj != InformationLine && t.obj != Column
    ensures forall i :: 0 <= i < |DataInfo(Success(g)).value| ==> DataInfo(Success(g)).value[i].1 != s
  {
  }

  /** The method-side class list: the subclass closures of InformationContentEntity
      and of the BFO temporal region class, concatenated. */
  function MethodClasses(cco: Parsed, mseo: Parsed): (r: Result<set<Term>, Exception>)
    ensures r.Success? <==> Ontology.LoadOntology(cco, mseo).Success?
    ensures r.Failure? ==> r.error == Ontology.LoadOntology(cco, mseo).error
    ensures r.Success? ==> forall c :: c in r.value <==>
      Ontology.SubClassIn(Ontology.LoadOntology(cco, mseo).value, c, InformationContentEntity) ||
      Ontology.SubClassIn(Ontology.LoadOntology(cco, mseo).value, c, TemporalRegion)
  {
    match Ontology.IceClasses(cco, mseo)
    case Failure(e) => Failure(e)
    case Success(ice) =>
      match Ontology.TemporalRegionClasses(cco, mseo)
      case Failure(e) => Failure(e)
      case Success(tr) => Success(ice + tr)
  }

  /** `get_methode_ICE`: the individuals of the method graph typed with a class
      of the method-side list. Parse failures propagate in the order the source
      parses: ontology first, method graph last. */
  function MethodIces(cco: Parsed, mseo: Parsed, methodDoc: Parsed): (r: Result<Dict<string, Term>, Exception>)
    ensures MethodClasses(cco, mseo).Failure? ==> r == Failure(MethodClasses(cco, mseo).error)
    ensures MethodClasses(cco, mseo).Success? && methodDoc.Failure? ==> r == Failure(ParseError(methodDoc.error))
    ensures r.Success? ==> methodDoc.Success? && MethodClasses(cco, mseo).Success? && UniqueKeys(r.value)
    ensures r.Success? ==> forall i :: 0 <= i < |r.value| ==>
      r.value[i].0 == ShortId(r.value[i].1) && TypedIn(methodDoc.value, r.value[i].1, MethodClasses(cco, mseo).value)
    ensures r.Success? ==> forall s :: TypedIn(methodDoc.value, s, MethodClasses(cco, mseo).value) ==>
      HasKey(r.value, ShortId(s))
  {
    match MethodClasses(cco, mseo)
    case Failure(e) => Failure(e)
    case Success(classes) =>
      match methodDoc
      case Failure(msg) => Failure(ParseError(msg))
      case Success(g) => Success(Extract(g, classes))
  }
}
