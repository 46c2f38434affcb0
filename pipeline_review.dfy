/**
 * What the review branch of `run_pipeline` does to the review folder and to
 * the graph, for any merge report, and for the two reports of interest: the
 * value `merge_fragment` returns as written (None, never truthy) and the
 * success flag the caller expects.
 */
module ReviewFacts {
  import opened Wrappers
  import opened Rdf
  import opened Paths
  import opened Ontology
  import opened Pipeline

  /** A queue entry that the review loop deletes: a `.ttl` file whose merge reports success. */
  predicate Deleted(e: Env, files: Files, queue: seq<string>, q: string)
  {
    q in queue && q in files && EndsWith(q, ".ttl") && e.mergeReport(files[q])
  }

  /**
   * The review loop deletes exactly the queue's `.ttl` files whose merge reports
   * success, keeps every other file with its content, and sends no prompt.
   */
  lemma {:induction false} ReviewFiles(e: Env, st: State, queue: seq<string>)
    requires Distinct(queue) && forall p :: p in queue ==> p in st.files
    ensures var r := Review(e, st, queue);
      && (forall q :: q in r.files <==> q in st.files && !Deleted(e, st.files, queue, q))
      && (forall q :: q in r.files ==> r.files[q] == st.files[q])
      && r.prompts == st.prompts && r.validated == st.validated
    decreases |queue|
  {
    if queue != [] {
      var p := queue[0];
      var st' := ReviewStep(e, st, p);
      var rest := queue[1..];
      assert forall x :: x in rest ==> x != p by {
        forall x | x in rest ensures x != p {
          var j :| 0 <= j < |rest| && rest[j] == x;
          assert queue[j + 1] == x;
        }
      }
      ReviewFiles(e, st', rest);
      var r := Review(e, st', rest);
      assert r == Review(e, st, queue);
      forall q
        ensures q in r.files <==> q in st.files && !Deleted(e, st.files, queue, q)
      {
        if q != p {
          assert q in queue <==> q in rest;
          assert q in st'.files ==> st'.files[q] == st.files[q];
        }
      }
    }
  }

  /** The fragments a queue feeds to `merge_fragment`: its `.ttl` files' contents, in order. */
  function TtlContents(files: Files, queue: seq<string>): seq<string>
    requires forall p :: p in queue ==> p in files
    decreases |queue|
  {
    if queue == [] then []
    else if EndsWith(queue[0], ".ttl") then [files[queue[0]]] + TtlContents(files, queue[1..])
    else TtlContents(files, queue[1..])
  }

  /** Two file systems that agree on a queue give it the same fragments. */
  lemma {:induction false} TtlContentsAgree(f1: Files, f2: Files, queue: seq<string>)
    requires forall p :: p in queue ==> p in f1 && p in f2 && f1[p] == f2[p]
    ensures TtlContents(f1, queue) == TtlContents(f2, queue)
    decreases |queue|
  {
    if queue != [] {
      TtlContentsAgree(f1, f2, queue[1..]);
    }
  }

  /** `merge_fragment` applied to each fragment in turn, counting parses from `n`. */
  function MergeAll(parse: Parser, graph: set<Triple>, n: nat, fragments: seq<string>): set<Triple>
    decreases |fragments|
  {
    if fragments == [] then graph
    else MergeAll(parse, Merged(graph, parse(fragments[0], n)), n + 1, fragments[1..])
  }

  /** A triple is in the merged graph iff it was there before or some fragment parsed to it. */
  lemma {:induction false} MergeAllMembers(parse: Parser, graph: set<Triple>, n: nat, fragments: seq<string>, t: Triple)
    ensures t in MergeAll(parse, graph, n, fragments) <==>
      t in graph || exists k :: 0 <= k < |fragments| && parse(fragments[k], n + k).Some? && t in parse(fragments[k], n + k).value
    decreases |fragments|
  {
    if fragments != [] {
      var g' := Merged(graph, parse(fragments[0], n));
      MergeAllMembers(parse, g', n + 1, fragments[1..], t);
      ParsedSomewhereCons(parse, n, fragments, t);
    }
  }

  /** Some fragment parses to `t` exactly when the first does or one of the rest does. */
  lemma ParsedSomewhereCons(parse: Parser, n: nat, fragments: seq<string>, t: Triple)
    requires fragments != []
    ensures (exists k :: 0 <= k < |fragments| && parse(fragments[k], n + k).Some? && t in parse(fragments[k], n + k).value) <==>
      (parse(fragments[0], n).Some? && t in parse(fragments[0], n).value) ||
      (exists k :: 0 <= k < |fragments[1..]| && parse(fragments[1..][k], n + 1 + k).Some? && t in parse(fragments[1..][k], n + 1 + k).value)
  {
    var rest := fragments[1..];
    if exists k :: 0 <= k < |rest| && parse(rest[k], n + 1 + k).Some? && t in parse(rest[k], n + 1 + k).value {
      var k :| 0 <= k < |rest| && parse(rest[k], n + 1 + k).Some? && t in parse(rest[k], n + 1 + k).value;
      assert fragments[k + 1] == rest[k];
    }
    if exists k :: 0 <= k < |fragments| && parse(fragments[k], n + k).Some? && t in parse(fragments[k], n + k).value {
      var k :| 0 <= k < |fragments| && parse(fragments[k], n + k).Some? && t in parse(fragments[k], n + k).value;
      if k > 0 {
        assert rest[k - 1] == fragments[k];
      }
    }
  }

  /** The review loop merges the queue's `.ttl` fragments in order, one parse each, whatever is deleted. */
  lemma {:induction false} ReviewGraph(e: Env, st: State, queue: seq<string>)
    requires Distinct(queue) && forall p :: p in queue ==> p in st.files
    ensures Review(e, st, queue).graph == MergeAll(e.parse, st.graph, st.parses, TtlContents(st.files, queue))
    ensures Review(e, st, queue).parses == st.parses + |TtlContents(st.files, queue)|
    decreases |queue|
  {
    if queue != [] {
      var p := queue[0];
      var st' := ReviewStep(e, st, p);
      var rest := queue[1..];
      assert forall x :: x in rest ==> x != p by {
        forall x | x in rest ensures x != p {
          var j :| 0 <= j < |rest| && rest[j] == x;
          assert queue[j + 1] == x;
        }
      }
      ReviewGraph(e, st', rest);
      TtlContentsAgree(st.files, st'.files, rest);
    }
  }

  /** As written, `merge_fragment` returns None, so nothing is ever deleted from the review folder. */
  lemma ReviewAsWrittenKeepsQueue(e: Env, st: State, queue: seq<string>)
    requires forall s :: !e.mergeReport(s)
    requires Distinct(queue) && forall p :: p in queue ==> p in st.files
    ensures Review(e, st, queue).files == st.files
  {
    ReviewFiles(e, st, queue);
  }

  /**
   * With the success flag the caller expects (the fragment parses), review mode
   * deletes exactly the `.ttl` files that parse and leaves those that do not.
   */
  lemma ReviewCorrectedDeletesParsed(e: Env, st: State, queue: seq<string>)
    requires forall s :: e.mergeReport(s) == e.parse(s, 0).Some?
    requires Distinct(queue) && forall p :: p in queue ==> p in st.files
    ensures forall q :: q in Review(e, st, queue).files <==>
      q in st.files && !(q in queue && EndsWith(q, ".ttl") && e.parse(st.files[q], 0).Some?)
  {
    ReviewFiles(e, st, queue);
  }

  /**
   * The whole review branch: it sends no prompt, invokes no validation, and
   * touches no file besides the review folder's entries and the saved ontology;
   * it fails (and changes nothing) exactly when the saved ontology does not parse.
   */
  lemma ReviewRunTouches(e: Env, files: Files, prompts: seq<string>, validated: seq<string>)
    requires Lists(e.listDir)
    ensures var r := ReviewRun(e, files, prompts, validated);
      && r.prompts == prompts && r.validated == validated
      && (!r.completed <==> FinalOntologyPath in files && e.parse(files[FinalOntologyPath], 0).None?)
      && (!r.completed ==> r.files == files)
      && (r.completed ==> FinalOntologyPath in r.files)
      && forall q :: q != FinalOntologyPath && !IsChild(ReviewDir, q) ==>
           (q in r.files <==> q in files) && (q in files ==> r.files[q] == files[q])
  {
    var st0 := State(files, {}, 0, prompts, validated);
    if !(FinalOntologyPath in files && e.parse(files[FinalOntologyPath], 0).None?) {
      var st1 := if FinalOntologyPath in files then st0.(graph := e.parse(files[FinalOntologyPath], 0).value, parses := 1) else st0;
      var queue := e.listDir(files, ReviewDir);
      assert IsListing(files, ReviewDir, queue);
      ReviewFiles(e, st1, queue);
    }
  }

  /** The saved ontology is the loaded one with the queue's fragments merged in. */
  lemma ReviewRunSaves(e: Env, files: Files, prompts: seq<string>, validated: seq<string>)
    requires Lists(e.listDir)
    requires FinalOntologyPath !in files || e.parse(files[FinalOntologyPath], 0).Some?
    ensures var queue := e.listDir(files, ReviewDir);
      var loaded := if FinalOntologyPath in files then e.parse(files[FinalOntologyPath], 0).value else {};
      var r := ReviewRun(e, files, prompts, validated);
      r.completed && r.files[FinalOntologyPath]
        == e.serialize(MergeAll(e.parse, loaded, if FinalOntologyPath in files then 1 else 0, TtlContents(files, queue)))
  {
    var st0 := State(files, {}, 0, prompts, validated);
    var st1 := if FinalOntologyPath in files then st0.(graph := e.parse(files[FinalOntologyPath], 0).value, parses := 1) else st0;
    var queue := e.listDir(files, ReviewDir);
    assert IsListing(files, ReviewDir, queue);
    ReviewGraph(e, st1, queue);
  }
}
