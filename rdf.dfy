/** The usual Some/None wrapper for partial results. */
module Wrappers {
  datatype Option<+T> = None | Some(value: T)
}

/**
 * RDF terms and triples as rdflib represents them, and the Turtle parser
 * (RDF 1.1 Turtle, a W3C Recommendation) as an oracle: its grammar is not
 * modelled, only the fact that a parse either fails or yields a set of triples.
 */
module Rdf {
  import opened Wrappers

  /** URIRef, Literal and BNode. */
  datatype Term =
    | Uri(iri: string)
    | Literal(lexical: string, dtype: string, lang: string)
    | BNode(id: string)

  datatype Triple = Triple(s: Term, p: Term, o: Term)

  /** `str(term)`: the IRI, the lexical form, or the blank-node label. */
  function Str(t: Term): string
  {
    match t
    case Uri(i) => i
    case Literal(l, _, _) => l
    case BNode(b) => b
  }

  predicate IsGround(t: Triple)
  {
    !t.s.BNode? && !t.p.BNode? && !t.o.BNode?
  }

  predicate AllGround(g: set<Triple>)
  {
    forall t :: t in g ==> IsGround(t)
  }

  /**
   * A Turtle parser: the text to parse and the number of parses made before it,
   * which stands for the fresh blank-node labels rdflib invents on every parse.
   * `None` is a parse that raises.
   */
  type Parser = (string, nat) -> Option<set<Triple>>

  /**
   * What every Turtle parser satisfies: whether a text parses does not depend on
   * when it is parsed, and a text without blank nodes parses to the same triples
   * every time.
   */
  ghost predicate ParserLaw(parse: Parser)
  {
    && (forall s, n: nat, m: nat :: parse(s, n).Some? == parse(s, m).Some?)
    && (forall s, n: nat, m: nat ::
          parse(s, n).Some? && AllGround(parse(s, n).value) ==> parse(s, m) == parse(s, n))
  }

  const RdfNs := "http://www.w3.org/1999/02/22-rdf-syntax-ns#"
  const RdfsNs := "http://www.w3.org/2000/01/rdf-schema#"
  const OwlNs := "http://www.w3.org/2002/07/owl#"

  /** RDF.type, RDFS.Class, OWL.Class, OWL.DatatypeProperty. */
  const RdfType := Uri(RdfNs + "type")
  const RdfsClass := Uri(RdfsNs + "Class")
  const OwlClass := Uri(OwlNs + "Class")
  const OwlDatatypeProperty := Uri(OwlNs + "DatatypeProperty")
}
