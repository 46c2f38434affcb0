/**
 * `run_pipeline(skip_raw, skip_ocr, review)` over an abstract file system
 * (a map from path to content). Each phase has a specification function that
 * folds one step over a directory listing, and a method of class `Pipeline`
 * whose loop is proved to compute it.
 *
 * External collaborators are oracles held in `Env`: directory listings, PDF
 * rasterisation, OCR, the LLM, the Turtle parser and serializer, and the
 * truthiness of what `merge_fragment` returns.
 */
module Pipeline {
  import opened Wrappers
  import opened Rdf
  import opened Paths
  import Splitter
  import Prompts
  import opened Ontology

  const RawDir := "data/raw"
  const ImagesDir := "data/images"
  const ProcessedDir := "data/processed"
  const FragmentsDir := "data/ontology_fragments"
  const ReviewDir := "data/review"
  const FinalOntologyPath := "output/final_ontology.ttl"

  type Files = map<string, string>

  /** `load_documents(dir)`: `os.listdir` joined to `dir`, in the order the OS gives. */
  type Lister = (Files, string) -> seq<string>

  ghost predicate Distinct<T>(s: seq<T>)
  {
    forall i, j :: 0 <= i < j < |s| ==> s[i] != s[j]
  }

  /** `ps` lists every file directly inside `dir`, each once. */
  ghost predicate IsListing(fs: Files, dir: string, ps: seq<string>)
  {
    && Distinct(ps)
    && (forall p :: p in ps ==> p in fs && IsChild(dir, p))
    && (forall p :: p in fs && IsChild(dir, p) ==> p in ps)
  }

  /** A lister that behaves as `os.listdir` does, in some order. */
  ghost predicate Lists(listDir: Lister)
  {
    forall fs, dir :: IsListing(fs, dir, listDir(fs, dir))
  }

  datatype Env = Env(
    parse: Parser,
    serialize: set<Triple> -> string,
    listDir: Lister,
    /** `convert_from_path`: the page images of a PDF, from its content. */
    pages: string -> seq<string>,
    /** `extract_text_from_image`: the text read from an image path and its content. */
    ocr: (string, string) -> string,
    /** `run_llm`: the reply to a prompt, given how many prompts were sent before it. */
    llm: (nat, string) -> string,
    /** Whether the value `merge_fragment` returned is truthy. */
    mergeReport: string -> bool,
    /** The template `build_generation_prompt` fills: `Prompts.GenerationTemplate` in a real run. */
    generation: Prompts.Template)

  /**
   * What a run has done so far: the file system, the builder's graph and parse
   * count, every prompt sent to the LLM, and every document the validation step
   * was invoked for.
   */
  datatype State = State(files: Files, graph: set<Triple>, parses: nat, prompts: seq<string>, validated: seq<string>)

  predicate IsImage(p: string)
  {
    EndsWith(p, ".png") || EndsWith(p, ".jpg") || EndsWith(p, ".jpeg")
  }

  // ---------------------------------------------------------------- review mode

  /** One entry of the review folder: a `.ttl` file is merged, and removed when the merge reports success. */
  function ReviewStep(e: Env, st: State, p: string): State
    requires p in st.files
  {
    if EndsWith(p, ".ttl") then
      var fragment := st.files[p];
      var files := if e.mergeReport(fragment) then st.files - {p} else st.files;
      st.(files := files, graph := Merged(st.graph, e.parse(fragment, st.parses)), parses := st.parses + 1)
    else st
  }

  function Review(e: Env, st: State, ps: seq<string>): State
    requires Distinct(ps) && forall p :: p in ps ==> p in st.files
    decreases |ps|
  {
    if ps == [] then st
    else
      var st' := ReviewStep(e, st, ps[0]);
      assert forall p :: p in ps[1..] ==> p != ps[0];
      Review(e, st', ps[1..])
  }

  // ---------------------------------------------------------------- raw documents

  /** `./data/images/<base>page_<n>.jpg`, the file `convert_pdf_to_images` saves page `n` (from 1) to. */
  function PageName(base: string, n: nat): string
  {
    ImagesDir + "/" + base + "page_" + NatToString(n) + ".jpg"
  }

  /** `convert_pdf_to_images`: the pages saved in order, page i + 1 under `PageName(base, i + 1)`. */
  function SavePages(files: Files, base: string, pages: seq<string>): (r: Files)
    ensures files.Keys <= r.Keys
    decreases |pages|
  {
    if pages == [] then files
    else SavePages(files, base, pages[..|pages| - 1])[PageName(base, |pages|) := pages[|pages| - 1]]
  }

  /** One raw document, routed by extension: rasterised, copied to the images or the processed folder, or skipped. */
  function RouteStep(e: Env, files: Files, p: string): (r: Files)
    requires p in files
    ensures files.Keys <= r.Keys
  {
    if EndsWith(p, ".pdf") then SavePages(files, Basename(p), e.pages(files[p]))
    else if IsImage(p) then files[ImagesDir + "/" + Basename(p) := files[p]]
    else if EndsWith(p, ".txt") then files[ProcessedDir + "/" + Basename(p) := files[p]]
    else files
  }

  function Route(e: Env, files: Files, ps: seq<string>): (r: Files)
    requires forall p :: p in ps ==> p in files
    ensures files.Keys <= r.Keys
    decreases |ps|
  {
    if ps == [] then files else Route(e, RouteStep(e, files, ps[0]), ps[1..])
  }

  // ---------------------------------------------------------------- OCR

  /** `data/processed/<stem>.txt` for an image path. */
  function OcrTarget(p: string): string
  {
    ProcessedDir + "/" + Stem(Basename(p)) + ".txt"
  }

  /** One staged image: its text is written next to the processed texts, unless OCR returned nothing. */
  function OcrStep(e: Env, files: Files, p: string): (r: Files)
    requires p in files
    ensures files.Keys <= r.Keys
  {
    if IsImage(p) then
      var text := e.ocr(p, files[p]);
      if text == "" then files else files[OcrTarget(p) := text]
    else files
  }

  function Ocr(e: Env, files: Files, ps: seq<string>): (r: Files)
    requires forall p :: p in ps ==> p in files
    ensures files.Keys <= r.Keys
    decreases |ps|
  {
    if ps == [] then files else Ocr(e, OcrStep(e, files, ps[0]), ps[1..])
  }

  // ---------------------------------------------------------------- generation

  /** The archive (or review) file for the chunk at position `k`: named by the first equal chunk. */
  function ChunkFile(dir: string, doc: string, chunks: seq<string>, k: nat): string
    requires k < |chunks|
  {
    FragmentName(dir, Basename(doc), IndexOf(chunks, chunks[k]))
  }

  /**
   * Chunk `k` of `doc`: prompt the LLM, archive its fragment, merge it, copy it
   * to the review folder when the merge is not reported as a success, and after
   * the last chunk invoke validation for the document.
   */
  function ChunkStep(e: Env, st: State, doc: string, chunks: seq<string>, k: nat): (r: State)
    requires k < |chunks|
    ensures st.files.Keys <= r.files.Keys
    ensures st.prompts <= r.prompts && st.validated <= r.validated
  {
    var prompt := Prompts.Fill(e.generation, chunks[k]);
    var fragment := e.llm(|st.prompts|, prompt);
    var archived := st.files[ChunkFile(FragmentsDir, doc, chunks, k) := fragment];
    var files := if e.mergeReport(fragment) then archived else archived[ChunkFile(ReviewDir, doc, chunks, k) := fragment];
    State(files, Merged(st.graph, e.parse(fragment, st.parses)), st.parses + 1, st.prompts + [prompt],
          if k == |chunks| - 1 then st.validated + [doc] else st.validated)
  }

  /** Chunks `k`, `k + 1`, ... of `doc`, in order. */
  function ChunksFrom(e: Env, st: State, doc: string, chunks: seq<string>, k: nat): (r: State)
    requires k <= |chunks|
    ensures st.files.Keys <= r.files.Keys
    ensures st.prompts <= r.prompts && st.validated <= r.validated
    decreases |chunks| - k
  {
    if k == |chunks| then st else ChunksFrom(e, ChunkStep(e, st, doc, chunks, k), doc, chunks, k + 1)
  }

  /** One processed document: a `.txt` file is split and its chunks processed; a zero chunk size raises (None). */
  function DocStep(e: Env, st: State, doc: string, chunkSize: int): (r: Option<State>)
    requires doc in st.files
    ensures r.Some? ==> st.files.Keys <= r.value.files.Keys
    ensures r.Some? ==> st.prompts <= r.value.prompts && st.validated <= r.value.validated
  {
    if EndsWith(doc, ".txt") then
      match Splitter.SplitText(st.files[doc], chunkSize)
      case None => None
      case Some(chunks) => Some(ChunksFrom(e, st, doc, chunks, 0))
    else Some(st)
  }

  /**
   * The document loop over `docs`, in order; it fails (None) when a document
   * fails. Files are only added or overwritten, and the prompt and validation
   * logs only extended.
   */
  function Generate(e: Env, st: State, docs: seq<string>, chunkSize: int): (r: Option<State>)
    requires forall d :: d in docs ==> d in st.files
    ensures r.Some? ==> st.files.Keys <= r.value.files.Keys
    ensures r.Some? ==> st.prompts <= r.value.prompts && st.validated <= r.value.validated
    decreases |docs|
  {
    if docs == [] then Some(st)
    else
      match DocStep(e, st, docs[0], chunkSize)
      case None => None
      case Some(st') => Generate(e, st', docs[1..], chunkSize)
  }

  // ---------------------------------------------------------------- the whole run

  /** What a run leaves behind: whether it completed (no exception escaped), the files, and the calls made. */
  datatype Outcome = Outcome(completed: bool, files: Files, prompts: seq<string>, validated: seq<string>)

  /** The review branch: load the saved ontology if there is one, reconcile the review folder, save. */
  function ReviewRun(e: Env, files: Files, prompts: seq<string>, validated: seq<string>): Outcome
    requires Lists(e.listDir)
  {
    var st0 := State(files, {}, 0, prompts, validated);
    if FinalOntologyPath in files && e.parse(files[FinalOntologyPath], 0).None? then
      Outcome(false, files, prompts, validated)
    else
      var st1 := if FinalOntologyPath in files then st0.(graph := e.parse(files[FinalOntologyPath], 0).value, parses := 1) else st0;
      var queue := e.listDir(files, ReviewDir);
      var st2 := Review(e, st1, queue);
      Outcome(true, st2.files[FinalOntologyPath := e.serialize(st2.graph)], st2.prompts, st2.validated)
  }

  /** The normal branch: route raw documents, OCR the images, generate from the processed texts listed at the start, save. */
  function GenerationRun(e: Env, files: Files, prompts: seq<string>, validated: seq<string>,
                         skipRaw: bool, skipOcr: bool, chunkSize: int): Outcome
    requires Lists(e.listDir)
  {
    var raw := if skipRaw then [] else e.listDir(files, RawDir);
    var processed := e.listDir(files, ProcessedDir);
    var routed := Route(e, files, raw);
    var images := if skipOcr then [] else e.listDir(routed, ImagesDir);
    var staged := Ocr(e, routed, images);
    match Generate(e, State(staged, {}, 0, prompts, validated), processed, chunkSize)
    case None => Outcome(false, staged, prompts, validated)
    case Some(st) => Outcome(true, st.files[FinalOntologyPath := e.serialize(st.graph)], st.prompts, st.validated)
  }

  function RunSpec(e: Env, files: Files, prompts: seq<string>, validated: seq<string>,
                   skipRaw: bool, skipOcr: bool, review: bool, chunkSize: int): Outcome
    requires Lists(e.listDir)
  {
    if review then ReviewRun(e, files, prompts, validated)
    else GenerationRun(e, files, prompts, validated, skipRaw, skipOcr, chunkSize)
  }

  // ---------------------------------------------------------------- the imperative driver

  class Pipeline {
    /** The file system. */
    var files: Files
    /** Every prompt sent to the LLM so far. */
    var prompts: seq<string>
    /** Every document the validation step was invoked for so far. */
    var validated: seq<string>
    const env: Env

    constructor (files: Files, env: Env)
      ensures this.files == files && prompts == [] && validated == [] && this.env == env
    {
      this.files := files;
      prompts := [];
      validated := [];
      this.env := env;
    }

    ghost function Snapshot(ob: OntologyBuilder): State
      reads this, ob
    {
      State(files, ob.graph, ob.parses, prompts, validated)
    }

    /** The review loop: each listed `.ttl` file is merged and removed when the merge reports success. */
    method ReviewQueue(ob: OntologyBuilder, queue: seq<string>)
      requires ob.parse == env.parse
      requires Distinct(queue) && forall p :: p in queue ==> p in files
      modifies this, ob
      ensures Snapshot(ob) == Review(env, old(Snapshot(ob)), queue)
    {
      var i := 0;
      while i < |queue|
        invariant 0 <= i <= |queue|
        invariant ob.parse == env.parse
        invariant Distinct(queue[i..]) && forall p :: p in queue[i..] ==> p in files
        invariant Review(env, Snapshot(ob), queue[i..]) == Review(env, old(Snapshot(ob)), queue)
      {
        var p := queue[i];
        if EndsWith(p, ".ttl") {
          var turtle := files[p];
          ob.MergeFragment(turtle);
          var res := env.mergeReport(turtle);
          if res {
            files := files - {p};
          }
        }
        assert queue[i..][1..] == queue[i + 1..];
        i := i + 1;
      }
    }

    /** The raw-document loop. */
    method RouteRaw(raw: seq<string>)
      requires forall p :: p in raw ==> p in files
      modifies this
      ensures files == Route(env, old(files), raw)
      ensures prompts == old(prompts) && validated == old(validated)
    {
      var i := 0;
      while i < |raw|
        invariant 0 <= i <= |raw|
        invariant forall p :: p in raw ==> p in files
        invariant prompts == old(prompts) && validated == old(validated)
        invariant Route(env, files, raw[i..]) == Route(env, old(files), raw)
      {
        var p := raw[i];
        if EndsWith(p, ".pdf") {
          files := SavePages(files, Basename(p), env.pages(files[p]));
        } else if IsImage(p) {
          files := files[ImagesDir + "/" + Basename(p) := files[p]];
        } else if EndsWith(p, ".txt") {
          files := files[ProcessedDir + "/" + Basename(p) := files[p]];
        }
        assert raw[i..][1..] == raw[i + 1..];
        i := i + 1;
      }
    }

    /** The OCR loop. */
    method RunOcr(images: seq<string>)
      requires forall p :: p in images ==> p in files
      modifies this
      ensures files == Ocr(env, old(files), images)
      ensures prompts == old(prompts) && validated == old(validated)
    {
      var i := 0;
      while i < |images|
        invariant 0 <= i <= |images|
        invariant forall p :: p in images ==> p in files
        invariant prompts == old(prompts) && validated == old(validated)
        invariant Ocr(env, files, images[i..]) == Ocr(env, old(files), images)
      {
        var p := images[i];
        if IsImage(p) {
          var text := env.ocr(p, files[p]);
          if text != "" {
            files := files[OcrTarget(p) := text];
          }
        }
        assert images[i..][1..] == images[i + 1..];
        i := i + 1;
      }
    }

    /** One iteration of the chunk loop: prompt, archive, merge, review copy, validation after the last chunk. */
    method ProcessChunk(ob: OntologyBuilder, doc: string, chunks: seq<string>, k: nat)
      requires k < |chunks|
      requires ob.parse == env.parse
      modifies this, ob
      ensures Snapshot(ob) == ChunkStep(env, old(Snapshot(ob)), doc, chunks, k)
    {
      var prompt := Prompts.Fill(env.generation, chunks[k]);
      var fragment := env.llm(|prompts|, prompt);
      prompts := prompts + [prompt];
      files := files[ChunkFile(FragmentsDir, doc, chunks, k) := fragment];
      ob.MergeFragment(fragment);
      var mergeSuccess := env.mergeReport(fragment);
      if !mergeSuccess {
        files := files[ChunkFile(ReviewDir, doc, chunks, k) := fragment];
      }
      if k == |chunks| - 1 {
        validated := validated + [doc];
      }
    }

    /** The chunk loop for one document. */
    method ProcessChunks(ob: OntologyBuilder, doc: string, chunks: seq<string>)
      requires ob.parse == env.parse
      modifies this, ob
      ensures Snapshot(ob) == ChunksFrom(env, old(Snapshot(ob)), doc, chunks, 0)
    {
      var k := 0;
      while k < |chunks|
        invariant 0 <= k <= |chunks|
        invariant ob.parse == env.parse
        invariant ChunksFrom(env, Snapshot(ob), doc, chunks, k) == ChunksFrom(env, old(Snapshot(ob)), doc, chunks, 0)
      {
        ProcessChunk(ob, doc, chunks, k);
        k := k + 1;
      }
    }

    /** The document loop; false when `split_text` raised (a zero chunk size), which ends the run. */
    method GenerateFragments(ob: OntologyBuilder, docs: seq<string>, chunkSize: int) returns (ok: bool)
      requires ob.parse == env.parse
      requires forall d :: d in docs ==> d in files
      modifies this, ob
      ensures Generate(env, old(Snapshot(ob)), docs, chunkSize) == if ok then Some(Snapshot(ob)) else None
      ensures !ok ==> Snapshot(ob) == old(Snapshot(ob))
    {
      var i := 0;
      while i < |docs|
        invariant 0 <= i <= |docs|
        invariant ob.parse == env.parse
        invariant forall d :: d in docs ==> d in files
        invariant Generate(env, Snapshot(ob), docs[i..], chunkSize) == Generate(env, old(Snapshot(ob)), docs, chunkSize)
        invariant chunkSize == 0 ==> Snapshot(ob) == old(Snapshot(ob))
      {
        var doc := docs[i];
        if EndsWith(doc, ".txt") {
          var text := files[doc];
          var split := Splitter.SplitText(text, chunkSize);
          if split.None? {
            return false;
          }
          ProcessChunks(ob, doc, split.value);
        }
        assert docs[i..][1..] == docs[i + 1..];
        i := i + 1;
      }
      return true;
    }

    /** The review branch of `run_pipeline`. */
    method RunReview(baseUri: string) returns (completed: bool)
      requires Lists(env.listDir)
      modifies this
      ensures Outcome(completed, files, prompts, validated) == ReviewRun(env, old(files), old(prompts), old(validated))
    {
      var ob := new OntologyBuilder(baseUri, env.parse, env.serialize);
      ghost var st0 := Snapshot(ob);
      if FinalOntologyPath in files {
        var loaded := ob.ParseIntoGraph(files[FinalOntologyPath]);
        if !loaded {
          return false;
        }
      }
      ghost var st1 := Snapshot(ob);
      assert st1 == if FinalOntologyPath in files
        then st0.(graph := env.parse(files[FinalOntologyPath], 0).value, parses := 1) else st0;
      var queue := env.listDir(files, ReviewDir);
      assert IsListing(files, ReviewDir, queue);
      ReviewQueue(ob, queue);
      assert Snapshot(ob) == Review(env, st1, queue);
      files := ob.SaveToFile(files, FinalOntologyPath);
      return true;
    }

    /** The normal branch of `run_pipeline`: raw routing, OCR, generation, save. */
    method RunGeneration(baseUri: string, skipRaw: bool, skipOcr: bool, chunkSize: int) returns (completed: bool)
      requires Lists(env.listDir)
      modifies this
      ensures Outcome(completed, files, prompts, validated)
           == GenerationRun(env, old(files), old(prompts), old(validated), skipRaw, skipOcr, chunkSize)
    {
      var raw := if skipRaw then [] else env.listDir(files, RawDir);
      assert forall p :: p in raw ==> p in files;
      var processed := env.listDir(files, ProcessedDir);
      assert forall p :: p in processed ==> p in files;
      var ob := new OntologyBuilder(baseUri, env.parse, env.serialize);
      RouteRaw(raw);
      var images := if skipOcr then [] else env.listDir(files, ImagesDir);
      assert forall p :: p in images ==> p in files;
      RunOcr(images);
      ghost var st0 := Snapshot(ob);
      assert st0 == State(files, {}, 0, old(prompts), old(validated));
      var ok := GenerateFragments(ob, processed, chunkSize);
      if !ok {
        return false;
      }
      files := ob.SaveToFile(files, FinalOntologyPath);
      return true;
    }

    /** `run_pipeline(skip_raw, skip_ocr, review)`; false when an exception escapes. */
    method Run(baseUri: string, skipRaw: bool, skipOcr: bool, review: bool, chunkSize: int) returns (completed: bool)
      requires Lists(env.listDir)
      modifies this
      ensures Outcome(completed, files, prompts, validated)
           == RunSpec(env, old(files), old(prompts), old(validated), skipRaw, skipOcr, review, chunkSize)
    {
      if review {
        completed := RunReview(baseUri);
      } else {
        completed := RunGeneration(baseUri, skipRaw, skipOcr, chunkSize);
      }
    }
  }
}
