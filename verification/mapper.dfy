/** The `Mapper` object (maptomethod.py:48-70): the method-side entities and
    the data-side choice list a user picks mapping partners from. */
module Mapper {
  import opened Wrappers
  import opened Rdf
  import opened Errors
  import opened PyDict
  import opened Entities

  /** One entry of the choice list: a subject IRI (absent for the sentinel) and its label. */
  type Choice = (Option<Term>, string)

  datatype Mapper = Mapper(
    dataUrl: string,
    methodUrl: string,
    methodeIces: Dict<string, Term>,
    infoLines: seq<Choice>)

  /** `Mapper.get_data_Info`: like the module-level function, except that any
      parse failure becomes a ValueError with a fixed message. */
  function MapperDataInfo(data: Parsed): (r: Result<Dict<string, Term>, Exception>)
    ensures data.Failure? ==> r == Failure(ValueError(InvalidJsonLd))
    ensures data.Success? ==> r == DataInfo(data)
  {
    match data
    case Failure(_) => Failure(ValueError(InvalidJsonLd))
    case Success(g) => Success(Extract(g, DataClasses))
  }

  /** `[(value, label) for label, value in d.items()]` with `(None, 'None')` inserted at the front. */
  function Choices(d: Dict<string, Term>): (r: seq<Choice>)
    ensures |r| == |d| + 1
    ensures r[0] == (None, "None")
    ensures forall i :: 0 <= i < |d| ==> r[i + 1] == (Some(d[i].1), d[i].0)
  {
    [(None, "None")] + seq(|d|, i requires 0 <= i < |d| => (Some(d[i].1), d[i].0))
  }

  /** The choice list built from the data document `g`: after the sentinel,
      one pair per entry of the data-side dict, labelled with its subject's short id. */
  lemma InfoLinesOfData(g: Graph)
    ensures |Choices(Extract(g, DataClasses))| == |Extract(g, DataClasses)| + 1
    ensures forall i :: 1 <= i < |Choices(Extract(g, DataClasses))| ==>
      var c := Choices(Extract(g, DataClasses))[i];
      c.0.Some? && c.1 == ShortId(c.0.value) && TypedIn(g, c.0.value, DataClasses)
  {
    var lines := Extract(g, DataClasses);
    var c := Choices(lines);
    forall i | 1 <= i < |c| ensures c[i].0.Some? && c[i].1 == ShortId(c[i].0.value) && TypedIn(g, c[i].0.value, DataClasses) {
      assert c[(i - 1) + 1] == (Some(lines[i - 1].1), lines[i - 1].0);
    }
  }

  /** No two choices carry the same label. */
  lemma InfoLinesDistinct(g: Graph)
    ensures forall i, j :: 1 <= i < j < |Choices(Extract(g, DataClasses))| ==>
      Choices(Extract(g, DataClasses))[i].1 != Choices(Extract(g, DataClasses))[j].1
  {
    var lines := Extract(g, DataClasses);
    var c := Choices(lines);
    forall i, j | 1 <= i < j < |c| ensures c[i].1 != c[j].1 {
      assert c[(i - 1) + 1].1 == lines[i - 1].0;
      assert c[(j - 1) + 1].1 == lines[j - 1].0;
    }
  }

  /** Every data entity can be chosen: its short id labels some choice. */
  lemma InfoLinesComplete(g: Graph, s: Term)
    requires TypedIn(g, s, DataClasses)
    ensures exists i :: 1 <= i < |Choices(Extract(g, DataClasses))| && Choices(Extract(g, DataClasses))[i].1 == ShortId(s)
  {
    var lines := Extract(g, DataClasses);
    assert HasKey(lines, ShortId(s));
    var k :| 0 <= k < |lines| && lines[k].0 == ShortId(s);
    assert Choices(lines)[k + 1] == (Some(lines[k].1), lines[k].0);
  }

  /** `Mapper(data_url, method_url)`: the method entities are extracted first,
      so their failures win; then the data document, whose parse failure
      becomes a ValueError. On success the choice list is built from the data
      entities (see `InfoLinesOfData`). */
  function NewMapper(dataUrl: string, methodUrl: string, cco: Parsed, mseo: Parsed, methodDoc: Parsed, data: Parsed)
    : (r: Result<Mapper, Exception>)
    ensures MethodIces(cco, mseo, methodDoc).Failure? ==> r == Failure(MethodIces(cco, mseo, methodDoc).error)
    ensures MethodIces(cco, mseo, methodDoc).Success? && data.Failure? ==> r == Failure(ValueError(InvalidJsonLd))
    ensures r.Success? ==> data.Success? && MethodIces(cco, mseo, methodDoc).Success?
    ensures r.Success? ==> r.value.dataUrl == dataUrl && r.value.methodUrl == methodUrl
    ensures r.Success? ==> r.value.methodeIces == MethodIces(cco, mseo, methodDoc).value
    ensures r.Success? ==> r.value.infoLines == Choices(Extract(data.value, DataClasses))
  {
    match MethodIces(cco, mseo, methodDoc)
    case Failure(e) => Failure(e)
    case Success(ices) =>
      match MapperDataInfo(data)
      case Failure(e) => Failure(e)
      case Success(lines) => Success(Mapper(dataUrl, methodUrl, ices, Choices(lines)))
  }
}
