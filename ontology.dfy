/**
 * `OntologyBuilder`: one mutable RDF graph that Turtle fragments are merged into.
 */
module Ontology {
  import opened Wrappers
  import opened Rdf
  import Paths

  /**
   * The graph after merging one parse outcome: nothing lost, every parsed triple
   * added and nothing else; a failed parse leaves the graph as it was.
   */
  function Merged(graph: set<Triple>, parsed: Option<set<Triple>>): (r: set<Triple>)
    ensures graph <= r
    ensures parsed.Some? ==> parsed.value <= r && r <= graph + parsed.value
    ensures parsed.None? ==> r == graph
  {
    if parsed.Some? then graph + parsed.value else graph
  }

  /**
   * Merging a fragment twice, at consecutive parses, is merging it once, when its
   * triples have no blank nodes. Blank nodes are relabelled on each parse, so
   * without that condition the second merge can add triples.
   */
  lemma {:induction false} MergeTwiceGround(parse: Parser, graph: set<Triple>, s: string, n: nat)
    requires ParserLaw(parse)
    requires parse(s, n).Some? ==> AllGround(parse(s, n).value)
    ensures Merged(Merged(graph, parse(s, n)), parse(s, n + 1)) == Merged(graph, parse(s, n))
  {
    if parse(s, n).Some? {
      assert parse(s, n + 1) == parse(s, n);
    } else {
      assert parse(s, n + 1).None?;
    }
  }

  /**
   * Two fragments merged in either order give the same graph, when both parse
   * to ground triples (or fail).
   */
  lemma {:induction false} MergeOrderGround(parse: Parser, graph: set<Triple>, s1: string, s2: string, n: nat)
    requires ParserLaw(parse)
    requires parse(s1, n).Some? ==> AllGround(parse(s1, n).value)
    requires parse(s2, n).Some? ==> AllGround(parse(s2, n).value)
    ensures Merged(Merged(graph, parse(s1, n)), parse(s2, n + 1))
         == Merged(Merged(graph, parse(s2, n)), parse(s1, n + 1))
  {
    if parse(s1, n).Some? {
      assert parse(s1, n + 1) == parse(s1, n);
    } else {
      assert parse(s1, n + 1).None?;
    }
    if parse(s2, n).Some? {
      assert parse(s2, n + 1) == parse(s2, n);
    } else {
      assert parse(s2, n + 1).None?;
    }
  }

  /**
   * A parser that gives a blank node a new label on each parse, and one text
   * "_:b" that it reads as one triple about a blank node.
   */
  function BlankRelabelling(s: string, n: nat): Option<set<Triple>>
  {
    if s == "_:b" then Some({Triple(BNode("b" + Paths.NatToString(n)), RdfType, OwlClass)}) else None
  }

  /** That parser satisfies the law, yet merging its blank-node fragment twice grows the graph. */
  lemma BlankNodesBreakIdempotence()
    ensures ParserLaw(BlankRelabelling)
    ensures Merged(Merged({}, BlankRelabelling("_:b", 0)), BlankRelabelling("_:b", 1))
         != Merged({}, BlankRelabelling("_:b", 0))
  {
    var t0 := Triple(BNode("b" + Paths.NatToString(0)), RdfType, OwlClass);
    var t1 := Triple(BNode("b" + Paths.NatToString(1)), RdfType, OwlClass);
    assert t0 != t1 by {
      if t0 == t1 {
        assert Paths.NatToString(0) == ("b" + Paths.NatToString(1))[1..];
        Paths.NatToStringInjective(0, 1);
      }
    }
    assert t1 in Merged(Merged({}, BlankRelabelling("_:b", 0)), BlankRelabelling("_:b", 1));
    forall s, n: nat | BlankRelabelling(s, n).Some?
      ensures !AllGround(BlankRelabelling(s, n).value)
    {
      assert Triple(BNode("b" + Paths.NatToString(n)), RdfType, OwlClass) in BlankRelabelling(s, n).value;
    }
  }

  class OntologyBuilder {
    /** `self.graph`. */
    var graph: set<Triple>
    /** How many Turtle parses this builder has made; it only feeds the parser's blank-node labels. */
    var parses: nat
    /** `self.base_uri`: stored by the constructor and never changed. */
    const baseUri: string
    /** rdflib's Turtle parser and serializer. */
    const parse: Parser
    const serialize: set<Triple> -> string

    /** `OntologyBuilder(base_uri)`: an empty graph. */
    constructor (baseUri: string, parse: Parser, serialize: set<Triple> -> string)
      ensures graph == {} && parses == 0
      ensures this.baseUri == baseUri && this.parse == parse && this.serialize == serialize
    {
      graph := {};
      parses := 0;
      this.baseUri := baseUri;
      this.parse := parse;
      this.serialize := serialize;
    }

    /**
     * `merge_fragment(turtle_str)`: parse into a fresh graph, then union it in;
     * a parse that raises is caught and leaves the graph untouched. Returns nothing.
     */
    method MergeFragment(turtle: string)
      modifies this
      ensures graph == Merged(old(graph), parse(turtle, old(parses)))
      ensures parses == old(parses) + 1
    {
      var parsed := parse(turtle, parses);
      parses := parses + 1;
      if parsed.Some? {
        graph := graph + parsed.value;
      }
    }

    /** `ob.graph.parse(data=...)` outside any try: the triples are added, or the parse raises (false) and the run ends. */
    method ParseIntoGraph(turtle: string) returns (ok: bool)
      modifies this
      ensures ok == parse(turtle, old(parses)).Some?
      ensures graph == Merged(old(graph), parse(turtle, old(parses)))
      ensures parses == old(parses) + 1
    {
      var parsed := parse(turtle, parses);
      parses := parses + 1;
      ok := parsed.Some?;
      if ok {
        graph := graph + parsed.value;
      }
    }

    /** `get_current_ontology_ttl()`: the Turtle text of the graph; the graph is only read. */
    method GetCurrentOntologyTtl() returns (ttl: string)
      ensures ttl == serialize(graph)
    {
      ttl := serialize(graph);
    }

    /** `save_to_file(filepath)`: the file system with `path` overwritten by the graph's Turtle text. */
    method SaveToFile(files: map<string, string>, path: string) returns (files': map<string, string>)
      ensures files' == files[path := serialize(graph)]
    {
      files' := files[path := serialize(graph)];
    }
  }
}
