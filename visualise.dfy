/**
 * `visualise.py`: the labels it computes (`qname_or_str`, `safe_html_label`)
 * and the nodes and edges `visualize_ontology` hands to pyvis, whose `Network`
 * is modelled as the log of `add_node` and `add_edge` calls it keeps.
 */
module Visualise {
  import opened Wrappers
  import opened Rdf
  import opened Paths

  // ---------------------------------------------------------------- labels

  /**
   * `qname_or_str(g, uri)`: the prefixed name when the namespace manager finds
   * one (`qname` is that lookup; None when it raises), otherwise the text after
   * the last '#', or else after the last '/', or else the whole string.
   */
  function QnameOrStr(qname: Option<string>, s: string): (r: string)
    ensures qname.Some? ==> r == qname.value
    ensures qname.None? && '#' in s ==> EndsWith(s, r) && '#' !in r && s[|s| - |r| - 1] == '#'
    ensures qname.None? && '#' !in s && '/' in s ==> EndsWith(s, r) && '/' !in r && s[|s| - |r| - 1] == '/'
    ensures qname.None? && '#' !in s && '/' !in s ==> r == s
  {
    if qname.Some? then qname.value
    else if '#' in s then AfterLast(s, '#')
    else if '/' in s then AfterLast(s, '/')
    else s
  }

  /** A failed lookup on `ns#name` gives `name`, and on `a/b/name` (no '#') gives `name`. */
  lemma QnameFallback(a: string, sep: char, name: string)
    requires sep == '#' || sep == '/'
    requires sep !in name && '#' !in name
    requires sep == '/' ==> '#' !in a
    ensures QnameOrStr(None, a + [sep] + name) == name
  {
    var s := a + [sep] + name;
    assert s[|a|] == sep;
    AfterLastAppend(a, sep, name);
    if sep == '/' {
      assert '#' !in s by {
        forall i | 0 <= i < |s| ensures s[i] != '#' {
          if i < |a| { assert s[i] == a[i]; } else if i > |a| { assert s[i] == name[i - |a| - 1]; }
        }
      }
    }
  }

  /** What `html.escape` turns one character into. */
  function EscapeChar(c: char): string
  {
    if c == '&' then "&amp;"
    else if c == '<' then "&lt;"
    else if c == '>' then "&gt;"
    else if c == '"' then "&quot;"
    else if c == '\'' then "&#x27;"
    else [c]
  }

  predicate Special(c: char)
  {
    c == '&' || c == '<' || c == '>' || c == '"' || c == '\''
  }

  /** `safe_html_label(text)`, that is `html.escape(text)` with its default `quote=True`. */
  function SafeHtmlLabel(text: string): (r: string)
    ensures forall i :: 0 <= i < |r| ==> r[i] != '<' && r[i] != '>' && r[i] != '"' && r[i] != '\''
    ensures |text| <= |r|
    decreases |text|
  {
    if text == [] then [] else EscapeChar(text[0]) + SafeHtmlLabel(text[1..])
  }

  /** Text with none of the five special characters is left as it is. */
  lemma {:induction false} SafeHtmlLabelPlain(text: string)
    requires forall i :: 0 <= i < |text| ==> !Special(text[i])
    ensures SafeHtmlLabel(text) == text
    decreases |text|
  {
    if text != [] {
      SafeHtmlLabelPlain(text[1..]);
    }
  }

  /** Reading the five entities back: the inverse of `html.escape` on its results. */
  function Unescape(s: string): string
    decreases |s|
  {
    if s == [] then []
    else if StartsWith(s, "&amp;") then "&" + Unescape(s[5..])
    else if StartsWith(s, "&lt;") then "<" + Unescape(s[4..])
    else if StartsWith(s, "&gt;") then ">" + Unescape(s[4..])
    else if StartsWith(s, "&quot;") then "\"" + Unescape(s[6..])
    else if StartsWith(s, "&#x27;") then "'" + Unescape(s[6..])
    else [s[0]] + Unescape(s[1..])
  }

  lemma UnescapeStep(c: char, rest: string)
    ensures Unescape(EscapeChar(c) + rest) == [c] + Unescape(rest)
  {
    var s := EscapeChar(c) + rest;
    var n := |EscapeChar(c)|;
    assert s[..n] == EscapeChar(c);
    assert s[n..] == rest;
    if c == '&' {
      assert StartsWith(s, "&amp;");
    } else if c == '<' {
      assert s[1] == 'l';
      assert !StartsWith(s, "&amp;");
      assert StartsWith(s, "&lt;");
    } else if c == '>' {
      assert s[1] == 'g';
      assert !StartsWith(s, "&amp;") && !StartsWith(s, "&lt;");
      assert StartsWith(s, "&gt;");
    } else if c == '"' {
      assert s[1] == 'q';
      assert !StartsWith(s, "&amp;") && !StartsWith(s, "&lt;") && !StartsWith(s, "&gt;");
      assert StartsWith(s, "&quot;");
    } else if c == '\'' {
      assert s[1] == '#';
      assert !StartsWith(s, "&amp;") && !StartsWith(s, "&lt;") && !StartsWith(s, "&gt;") && !StartsWith(s, "&quot;");
      assert StartsWith(s, "&#x27;");
    } else {
      assert s[0] == c && c != '&';
      assert !StartsWith(s, "&amp;") && !StartsWith(s, "&lt;") && !StartsWith(s, "&gt;");
      assert !StartsWith(s, "&quot;") && !StartsWith(s, "&#x27;");
    }
  }

  /** Escaping loses nothing: the label reads back as the text. */
  lemma {:induction false} UnescapeSafeHtmlLabel(text: string)
    ensures Unescape(SafeHtmlLabel(text)) == text
    decreases |text|
  {
    if text != [] {
      UnescapeSafeHtmlLabel(text[1..]);
      UnescapeStep(text[0], SafeHtmlLabel(text[1..]));
    }
  }

  /** Distinct texts get distinct labels. */
  lemma SafeHtmlLabelInjective(a: string, b: string)
    requires SafeHtmlLabel(a) == SafeHtmlLabel(b)
    ensures a == b
  {
    UnescapeSafeHtmlLabel(a);
    UnescapeSafeHtmlLabel(b);
  }

  function Bold(html: string): string { "<b>" + html + "</b>" }
  function Italic(html: string): string { "<i>" + html + "</i>" }

  /** `max(12, int(size * 0.25))` for the non-negative sizes used. */
  function FontSize(size: nat): (r: nat)
    ensures r >= 12 && r >= size / 4
    ensures r == 12 || r == size / 4
  {
    if size / 4 > 12 then size / 4 else 12
  }

  /** The four sizes `visualize_ontology` uses give fonts 20, 15, 12 and 12. */
  lemma FontSizes()
    ensures FontSize(80) == 20 && FontSize(60) == 15 && FontSize(30) == 12 && FontSize(36) == 12
  {
  }

  // ---------------------------------------------------------------- pyvis

  datatype NodeCall = NodeCall(id: string, caption: string, color: string, shape: string, size: nat, fontSize: nat)
  datatype EdgeCall = EdgeCall(src: string, dst: string, caption: string, color: string)

  function NodeIds(nodes: seq<NodeCall>): set<string>
  {
    set n | n in nodes :: n.id
  }

  predicate DistinctIds(nodes: seq<NodeCall>)
  {
    forall i, j :: 0 <= i < j < |nodes| ==> nodes[i].id != nodes[j].id
  }

  /** pyvis's `Network`, directed: the nodes and edges it holds, in the order they were added. */
  class Network {
    var nodes: seq<NodeCall>
    var edges: seq<EdgeCall>

    constructor ()
      ensures nodes == [] && edges == []
    {
      nodes := [];
      edges := [];
    }

    /** `add_node`: pyvis ignores an id it already holds. */
    method AddNode(n: NodeCall)
      modifies this
      ensures n.id in NodeIds(old(nodes)) ==> nodes == old(nodes)
      ensures n.id !in NodeIds(old(nodes)) ==> nodes == old(nodes) + [n]
      ensures edges == old(edges)
    {
      if n.id !in NodeIds(nodes) {
        nodes := nodes + [n];
      }
    }

    /** `add_edge`: pyvis asserts that both ends are nodes, and a directed network keeps every edge. */
    method AddEdge(e: EdgeCall)
      requires e.src in NodeIds(nodes) && e.dst in NodeIds(nodes)
      modifies this
      ensures edges == old(edges) + [e] && nodes == old(nodes)
    {
      edges := edges + [e];
    }
  }

  // ---------------------------------------------------------------- what the walk draws

  /** `g.subjects(RDF.type, RDFS.Class)` and `OWL.Class`, URIs only. */
  function ClassNodes(graph: set<Triple>): (r: set<Term>)
    ensures forall c :: c in r <==> c.Uri? && (Triple(c, RdfType, RdfsClass) in graph || Triple(c, RdfType, OwlClass) in graph)
  {
    set t | t in graph && t.s.Uri? && t.p == RdfType && (t.o == RdfsClass || t.o == OwlClass) :: t.s
  }

  /** The URI subjects of the graph. */
  function UriSubjects(graph: set<Triple>): (r: set<Term>)
    ensures forall u :: u in r <==> u.Uri? && exists t :: t in graph && t.s == u
  {
    set t | t in graph && t.s.Uri? :: t.s
  }

  /** `p == RDF.type and (o == RDFS.Class or o == OWL.Class)`: the triples the walk skips. */
  predicate IsClassDeclaration(t: Triple)
  {
    t.p == RdfType && (t.o == RdfsClass || t.o == OwlClass)
  }

  /**
   * The colour of a triple's edge: `#ffb703` for a literal object, and for a URI
   * object when the graph declares the predicate an `owl:DatatypeProperty`;
   * `#219ebc` for any other URI object; `#999999` for a blank node.
   */
  function EdgeColor(graph: set<Triple>, t: Triple): (r: string)
    ensures r == "#ffb703" <==> t.o.Literal? || (t.o.Uri? && Triple(t.p, RdfType, OwlDatatypeProperty) in graph)
    ensures r == "#219ebc" <==> t.o.Uri? && Triple(t.p, RdfType, OwlDatatypeProperty) !in graph
    ensures r == "#999999" <==> t.o.BNode?
  {
    if t.o.Literal? then "#ffb703"
    else if t.o.Uri? then (if Triple(t.p, RdfType, OwlDatatypeProperty) in graph then "#ffb703" else "#219ebc")
    else "#999999"
  }

  class Visualiser {
    /** `added_nodes`. */
    var added: set<string>
    const net: Network
    const graph: set<Triple>
    /** `g.namespace_manager.qname(uri)`; None where it raises. */
    const qname: Term -> Option<string>
    /** `abs(hash((str(o), p_label_short, subj_id)))`, which Python randomises per process. */
    const hash: (string, string, string) -> nat

    constructor (graph: set<Triple>, qname: Term -> Option<string>, hash: (string, string, string) -> nat)
      ensures added == {} && fresh(net) && net.nodes == [] && net.edges == []
      ensures this.graph == graph && this.qname == qname && this.hash == hash
    {
      added := {};
      net := new Network();
      this.graph := graph;
      this.qname := qname;
      this.hash := hash;
    }

    /** `added_nodes` is exactly the set of ids pyvis holds, each once. */
    ghost predicate Valid()
      reads this, net
    {
      added == NodeIds(net.nodes) && DistinctIds(net.nodes)
    }

    function Label(t: Term): string
    {
      QnameOrStr(qname(t), Str(t))
    }

    /** The node a URI gets: a bold label in a blue box. */
    function UriNode(u: Term, size: nat): NodeCall
    {
      NodeCall(Str(u), Bold(SafeHtmlLabel(Label(u))), "#8ecae6", "box", size, FontSize(size))
    }

    /** The short predicate label. */
    function PredicateLabel(p: Term): string
    {
      if p.Uri? then Label(p) else Str(p)
    }

    /** The end node of a triple's edge: the object's URI, or a hashed `lit:`/`node:` id. */
    function ObjectId(t: Triple): (r: string)
      ensures t.o.Uri? ==> r == Str(t.o)
      ensures t.o.Literal? ==> |r| > 4 && r[..4] == "lit:" && forall i :: 4 <= i < |r| ==> IsDigit(r[i])
      ensures t.o.BNode? ==> |r| > 5 && r[..5] == "node:" && forall i :: 5 <= i < |r| ==> IsDigit(r[i])
    {
      var h := NatToString(hash(Str(t.o), PredicateLabel(t.p), Str(t.s)));
      if t.o.Literal? then "lit:" + h else if t.o.Uri? then Str(t.o) else "node:" + h
    }

    function EdgeFor(t: Triple): EdgeCall
    {
      EdgeCall(Str(t.s), ObjectId(t), Italic(SafeHtmlLabel(PredicateLabel(t.p))), EdgeColor(graph, t))
    }

    function EdgesOf(ts: seq<Triple>): seq<EdgeCall>
    {
      seq(|ts|, i requires 0 <= i < |ts| => EdgeFor(ts[i]))
    }

    /** `add_node_if_missing`: the first call for an id wins; a repeated id changes nothing. */
    method AddNodeIfMissing(n: NodeCall)
      requires Valid()
      modifies this, net
      ensures Valid()
      ensures n.id in old(added) ==> added == old(added) && net.nodes == old(net.nodes)
      ensures n.id !in old(added) ==> added == old(added) + {n.id} && net.nodes == old(net.nodes) + [n]
      ensures net.edges == old(net.edges)
    {
      if n.id in added {
        return;
      }
      net.AddNode(n);
      added := added + {n.id};
    }

    /** The boxes of the given URIs, in order. */
    function Boxes(us: seq<Term>, size: nat): seq<NodeCall>
    {
      seq(|us|, i requires 0 <= i < |us| => UriNode(us[i], size))
    }

    /** A URI not among `us` has no box among theirs. */
    lemma BoxIdsFresh(us: seq<Term>, u: Term, size: nat)
      requires u.Uri? && u !in us && forall v :: v in us ==> v.Uri?
      ensures Str(u) !in NodeIds(Boxes(us, size))
    {
      forall n | n in Boxes(us, size) ensures n.id != Str(u) {
        var i :| 0 <= i < |us| && Boxes(us, size)[i] == n;
        assert us[i] in us;
      }
    }

    /** Step 1: one box of size 80 per class, in whatever order the set yields them (`drawn`). */
    method AddClassNodes() returns (ghost drawn: seq<Term>)
      requires Valid() && net.nodes == []
      modifies this, net
      ensures Valid()
      ensures forall i, j :: 0 <= i < j < |drawn| ==> drawn[i] != drawn[j]
      ensures forall c :: c in drawn <==> c in ClassNodes(graph)
      ensures net.nodes == Boxes(drawn, 80)
      ensures net.edges == old(net.edges)
    {
      var classes := ClassNodes(graph);
      var remaining := classes;
      drawn := [];
      while remaining != {}
        invariant remaining <= classes
        invariant Valid()
        invariant forall i, j :: 0 <= i < j < |drawn| ==> drawn[i] != drawn[j]
        invariant forall c :: c in drawn <==> c in classes - remaining
        invariant net.nodes == Boxes(drawn, 80)
        invariant net.edges == old(net.edges)
        decreases |remaining|
      {
        var c :| c in remaining;
        BoxIdsFresh(drawn, c, 80);
        AddNodeIfMissing(UriNode(c, 80));
        assert Boxes(drawn + [c], 80) == Boxes(drawn, 80) + [UriNode(c, 80)];
        drawn := drawn + [c];
        remaining := remaining - {c};
      }
    }

    /** Step 2: a box of size 60 for every URI subject not drawn yet. */
    method AddSubjectNodes()
      requires Valid()
      modifies this, net
      ensures Valid()
      ensures forall s :: s in UriSubjects(graph) ==> Str(s) in added
      ensures old(net.nodes) <= net.nodes
      ensures forall n :: n in net.nodes[|old(net.nodes)|..] ==> exists s :: s in UriSubjects(graph) && n == UriNode(s, 60)
      ensures net.edges == old(net.edges)
    {
      var remaining := UriSubjects(graph);
      while remaining != {}
        invariant remaining <= UriSubjects(graph)
        invariant Valid()
        invariant forall s :: s in UriSubjects(graph) - remaining ==> Str(s) in added
        invariant old(net.nodes) <= net.nodes
        invariant forall n :: n in net.nodes[|old(net.nodes)|..] ==> exists s :: s in UriSubjects(graph) && n == UriNode(s, 60)
        invariant net.edges == old(net.edges)
        decreases |remaining|
      {
        var s :| s in remaining;
        ghost var before := net.nodes;
        if Str(s) !in added {
          AddNodeIfMissing(UriNode(s, 60));
        }
        assert net.nodes[|old(net.nodes)|..] == before[|old(net.nodes)|..] + net.nodes[|before|..];
        remaining := remaining - {s};
      }
    }

    /** The node a subject gets in step 3 when it is not drawn yet: bold for a URI, plain for a blank node. */
    function SubjectNode(s: Term): (r: NodeCall)
      ensures r.id == Str(s) && r.color == "#8ecae6" && r.shape == "box" && r.size == 60
      ensures s.Uri? ==> r == UriNode(s, 60)
      ensures !s.Uri? ==> r.caption == SafeHtmlLabel(Str(s))
    {
      var caption := if s.Uri? then Bold(SafeHtmlLabel(Label(s))) else SafeHtmlLabel(Str(s));
      NodeCall(Str(s), caption, "#8ecae6", "box", 60, FontSize(60))
    }

    /** The node a triple's object gets in step 3 when it is not drawn yet. */
    function ObjectNode(t: Triple): (r: NodeCall)
      ensures r.id == ObjectId(t)
      ensures t.o.Uri? ==> r == UriNode(t.o, 60)
      ensures t.o.Literal? ==> r.caption == SafeHtmlLabel(Str(t.o)) && r.shape == "ellipse" && r.color == "#fefae0" && r.size == 30
      ensures t.o.BNode? ==> r.caption == SafeHtmlLabel(Str(t.o)) && r.shape == "ellipse" && r.color == "#e0e0e0" && r.size == 36
    {
      if t.o.Literal? then NodeCall(ObjectId(t), SafeHtmlLabel(Str(t.o)), "#fefae0", "ellipse", 30, FontSize(30))
      else if t.o.Uri? then UriNode(t.o, 60)
      else NodeCall(ObjectId(t), SafeHtmlLabel(Str(t.o)), "#e0e0e0", "ellipse", 36, FontSize(36))
    }

    /**
     * The nodes one triple of step 3 appends when the ids in `seen` are drawn
     * already: the subject's node if missing, then the object's node if missing.
     */
    function TripleNodes(seen: set<string>, t: Triple): seq<NodeCall>
    {
      (if Str(t.s) in seen then [] else [SubjectNode(t.s)])
      + (if ObjectId(t) in seen + {Str(t.s)} then [] else [ObjectNode(t)])
    }

    /** The ids of both ends of every triple in `ts`. */
    function EndIds(ts: seq<Triple>): set<string>
      decreases |ts|
    {
      if ts == [] then {}
      else EndIds(ts[..|ts| - 1]) + {Str(ts[|ts| - 1].s), ObjectId(ts[|ts| - 1])}
    }

    /** The nodes step 3 appends while walking `ts` in order, starting with the ids in `seen` drawn. */
    function WalkNodes(seen: set<string>, ts: seq<Triple>): seq<NodeCall>
      decreases |ts|
    {
      if ts == [] then []
      else
        var prefix := ts[..|ts| - 1];
        WalkNodes(seen, prefix) + TripleNodes(seen + EndIds(prefix), ts[|ts| - 1])
    }

    /** Walking one more triple appends its nodes, its end ids and its edge. */
    lemma WalkSnoc(seen: set<string>, ts: seq<Triple>, t: Triple)
      ensures WalkNodes(seen, ts + [t]) == WalkNodes(seen, ts) + TripleNodes(seen + EndIds(ts), t)
      ensures EndIds(ts + [t]) == EndIds(ts) + {Str(t.s), ObjectId(t)}
      ensures EdgesOf(ts + [t]) == EdgesOf(ts) + [EdgeFor(t)]
    {
      assert (ts + [t])[..|ts|] == ts;
    }

    /** The node list after one more triple, given the list before it. */
    lemma WalkNodesSnoc(seen: set<string>, ts: seq<Triple>, t: Triple,
                        base: seq<NodeCall>, before: seq<NodeCall>, after: seq<NodeCall>)
      requires before == base + WalkNodes(seen, ts)
      requires after == before + TripleNodes(seen + EndIds(ts), t)
      ensures after == base + WalkNodes(seen, ts + [t])
    {
      WalkSnoc(seen, ts, t);
    }

    /** The edge list after one more triple, given the list before it. */
    lemma WalkEdgesSnoc(ts: seq<Triple>, t: Triple, base: seq<EdgeCall>, before: seq<EdgeCall>, after: seq<EdgeCall>)
      requires before == base + EdgesOf(ts)
      requires after == before + [EdgeFor(t)]
      ensures after == base + EdgesOf(ts + [t])
    {
      WalkSnoc({}, ts, t);
    }

    /** Every node the walk appends is the subject node or the object node of a walked triple. */
    lemma {:induction false} WalkNodesFrom(seen: set<string>, ts: seq<Triple>)
      ensures forall n :: n in WalkNodes(seen, ts) ==>
        exists t :: t in ts && (n == SubjectNode(t.s) || n == ObjectNode(t))
      decreases |ts|
    {
      if ts != [] {
        var prefix := ts[..|ts| - 1];
        var last := ts[|ts| - 1];
        WalkNodesFrom(seen, prefix);
        forall n | n in WalkNodes(seen, ts)
          ensures exists t :: t in ts && (n == SubjectNode(t.s) || n == ObjectNode(t))
        {
          if n in WalkNodes(seen, prefix) {
            var t :| t in prefix && (n == SubjectNode(t.s) || n == ObjectNode(t));
            assert t in ts;
          } else {
            assert n in TripleNodes(seen + EndIds(prefix), last);
            assert last in ts;
          }
        }
      }
    }

    /**
     * One triple of step 3: the subject's node (visualise.py:114-118) and the
     * object's node (120-126, 128-132, 147-151) are appended when their ids are
     * missing, then one edge from the subject.
     */
    method DrawTriple(t: Triple)
      requires Valid()
      requires forall e :: e in net.edges ==> e.src in added && e.dst in added
      modifies this, net
      ensures Valid()
      ensures net.nodes == old(net.nodes) + TripleNodes(old(added), t)
      ensures added == old(added) + {Str(t.s), ObjectId(t)}
      ensures net.edges == old(net.edges) + [EdgeFor(t)]
      ensures forall e :: e in net.edges ==> e.src in added && e.dst in added
    {
      ghost var seen, nodes0 := added, net.nodes;
      ghost var subjectNodes := if Str(t.s) in seen then [] else [SubjectNode(t.s)];
      ghost var objectNodes := if ObjectId(t) in seen + {Str(t.s)} then [] else [ObjectNode(t)];
      if Str(t.s) !in added {
        AddNodeIfMissing(SubjectNode(t.s));
      }
      assert net.nodes == nodes0 + subjectNodes && added == seen + {Str(t.s)};
      ghost var nodes1 := net.nodes;
      var n := ObjectNode(t);
      assert n.id == ObjectId(t);
      if n.id !in added {
        AddNodeIfMissing(n);
      }
      assert net.nodes == nodes1 + objectNodes;
      assert TripleNodes(seen, t) == subjectNodes + objectNodes;
      assert net.nodes == nodes0 + (subjectNodes + objectNodes);
      net.AddEdge(EdgeFor(t));
    }

    /** The walk so far: `order` lists each walked non-declaration triple once, and `remaining` is what is left. */
    ghost predicate Walking(order: seq<Triple>, remaining: set<Triple>)
    {
      && remaining <= graph
      && (forall i, j :: 0 <= i < j < |order| ==> order[i] != order[j])
      && (forall t :: t in order <==> t in graph - remaining && !IsClassDeclaration(t))
    }

    /** Taking one more triple out of `remaining` keeps the walk's bookkeeping. */
    lemma WalkingStep(order: seq<Triple>, remaining: set<Triple>, t: Triple)
      requires Walking(order, remaining) && t in remaining
      ensures !IsClassDeclaration(t) ==> Walking(order + [t], remaining - {t})
      ensures IsClassDeclaration(t) ==> Walking(order, remaining - {t})
    {
      if !IsClassDeclaration(t) {
        assert t !in order;
        var order' := order + [t];
        forall i, j | 0 <= i < j < |order'| ensures order'[i] != order'[j] {
          if j == |order| {
            assert order[i] in order;
          }
        }
      }
    }

    /**
     * The drawing after walking `order`: the nodes and edges it appended to
     * `nodes0` and `edges0`, the ids it added to `seen0`, every edge between drawn ids.
     */
    ghost predicate Walked(order: seq<Triple>, seen0: set<string>, nodes0: seq<NodeCall>, edges0: seq<EdgeCall>)
      reads this, net
    {
      && Valid()
      && net.nodes == nodes0 + WalkNodes(seen0, order)
      && added == seen0 + EndIds(order)
      && net.edges == edges0 + EdgesOf(order)
      && (forall e :: e in net.edges ==> e.src in added && e.dst in added)
    }

    /** DrawTriple, read as one more step of the walk over `order`. */
    method WalkStep(t: Triple, ghost order: seq<Triple>, ghost seen0: set<string>,
                    ghost nodes0: seq<NodeCall>, ghost edges0: seq<EdgeCall>)
      requires Walked(order, seen0, nodes0, edges0)
      modifies this, net
      ensures Walked(order + [t], seen0, nodes0, edges0)
    {
      ghost var nodes1, edges1 := net.nodes, net.edges;
      DrawTriple(t);
      WalkNodesSnoc(seen0, order, t, nodes0, nodes1, net.nodes);
      WalkEdgesSnoc(order, t, edges0, edges1, net.edges);
    }

    /**
     * Step 3: every triple except a class declaration yields exactly one edge, in
     * the order walked, and the nodes appended are exactly those its triples
     * draw in that order.
     */
    method WalkTriples() returns (ghost order: seq<Triple>)
      requires Valid()
      requires forall e :: e in net.edges ==> e.src in added && e.dst in added
      modifies this, net
      ensures Valid()
      ensures forall i, j :: 0 <= i < j < |order| ==> order[i] != order[j]
      ensures forall t :: t in order <==> t in graph && !IsClassDeclaration(t)
      ensures net.nodes == old(net.nodes) + WalkNodes(old(added), order)
      ensures added == old(added) + EndIds(order)
      ensures net.edges == old(net.edges) + EdgesOf(order)
      ensures forall e :: e in net.edges ==> e.src in added && e.dst in added
    {
      order := [];
      var remaining := graph;
      ghost var seen0, nodes0, edges0 := added, net.nodes, net.edges;
      assert net.nodes == nodes0 + WalkNodes(seen0, order);
      assert net.edges == edges0 + EdgesOf(order);
      while remaining != {}
        invariant Walking(order, remaining)
        invariant Walked(order, seen0, nodes0, edges0)
        decreases |remaining|
      {
        var t :| t in remaining;
        WalkingStep(order, remaining, t);
        if !IsClassDeclaration(t) {
          WalkStep(t, order, seen0, nodes0, edges0);
          order := order + [t];
        }
        remaining := remaining - {t};
      }
    }

    /** A node of step 2 or 3: a URI subject's box, or the subject or object node of a walked triple. */
    ghost predicate DrawnLater(n: NodeCall, order: seq<Triple>)
    {
      || (exists s :: s in UriSubjects(graph) && n == UriNode(s, 60))
      || (exists t :: t in order && (n == SubjectNode(t.s) || n == ObjectNode(t)))
    }

    /** After the boxes of `classes`, every node is one that steps 2 and 3 draw. */
    lemma DrawnAfterBoxes(classes: seq<Term>, subjects: seq<NodeCall>, all: seq<NodeCall>,
                          seen: set<string>, order: seq<Triple>)
      requires Boxes(classes, 80) <= subjects
      requires forall n :: n in subjects[|classes|..] ==> exists s :: s in UriSubjects(graph) && n == UriNode(s, 60)
      requires all == subjects + WalkNodes(seen, order)
      ensures |classes| <= |all| && all[..|classes|] == Boxes(classes, 80)
      ensures forall n :: n in all[|classes|..] ==> DrawnLater(n, order)
    {
      WalkNodesFrom(seen, order);
      assert all[|classes|..] == subjects[|classes|..] + WalkNodes(seen, order);
    }

    /**
     * The graph walk of `visualize_ontology`: class boxes, then other URI
     * subjects, then one edge per non-declaration triple with both ends drawn.
     */
    method Draw() returns (ghost classes: seq<Term>, ghost order: seq<Triple>)
      requires Valid() && net.nodes == [] && net.edges == []
      modifies this, net
      ensures Valid()
      ensures forall i, j :: 0 <= i < j < |classes| ==> classes[i] != classes[j]
      ensures forall c :: c in classes <==> c in ClassNodes(graph)
      ensures |classes| <= |net.nodes| && net.nodes[..|classes|] == Boxes(classes, 80)
      ensures forall n :: n in net.nodes[|classes|..] ==> DrawnLater(n, order)
      ensures forall s :: s in UriSubjects(graph) ==> Str(s) in NodeIds(net.nodes)
      ensures forall t :: t in order <==> t in graph && !IsClassDeclaration(t)
      ensures forall i, j :: 0 <= i < j < |order| ==> order[i] != order[j]
      ensures net.edges == EdgesOf(order)
      ensures forall e :: e in net.edges ==> e.src in NodeIds(net.nodes) && e.dst in NodeIds(net.nodes)
    {
      classes := AddClassNodes();
      AddSubjectNodes();
      ghost var subjectNodes := net.nodes;
      ghost var seen := added;
      assert forall s :: s in UriSubjects(graph) ==> Str(s) in seen;
      order := WalkTriples();
      ghost var all := net.nodes;
      DrawnAfterBoxes(classes, subjectNodes, all, seen, order);
    }
  }
}
