/**
 * Facts about a whole run of `run_pipeline` in its normal (non-review) mode,
 * and about the names of fragment files.
 */
module RunFacts {
  import opened Paths
  import opened Pipeline
  import opened StagingFacts
  import opened GenerationFacts

  /** A file in none of the folders a normal run writes to, and not the saved ontology. */
  predicate OutsideWorkFolders(q: string)
  {
    && q != FinalOntologyPath
    && !StartsWith(q, ImagesDir + "/") && !StartsWith(q, ProcessedDir + "/")
    && !StartsWith(q, FragmentsDir + "/") && !StartsWith(q, ReviewDir + "/")
  }

  /**
   * A normal run, completed or not, leaves every file outside the images,
   * processed, archive and review folders and the saved ontology as it was:
   * in particular the raw documents.
   */
  lemma GenerationRunTouches(e: Env, files: Files, prompts: seq<string>, validated: seq<string>,
                             skipRaw: bool, skipOcr: bool, c: int, q: string)
    requires Lists(e.listDir)
    requires OutsideWorkFolders(q)
    ensures var r := GenerationRun(e, files, prompts, validated, skipRaw, skipOcr, c);
      (q in r.files <==> q in files) && (q in files ==> r.files[q] == files[q])
  {
    var raw := if skipRaw then [] else e.listDir(files, RawDir);
    var processed := e.listDir(files, ProcessedDir);
    assert IsListing(files, RawDir, e.listDir(files, RawDir));
    assert IsListing(files, ProcessedDir, processed);
    forall p | p in raw ensures q != ProcessedDir + "/" + Basename(p) {
      PrefixOfConcat(ProcessedDir + "/", Basename(p));
    }
    RouteFrame(e, files, raw, q);
    var routed := Route(e, files, raw);
    var images := if skipOcr then [] else e.listDir(routed, ImagesDir);
    assert IsListing(routed, ImagesDir, e.listDir(routed, ImagesDir));
    forall p | p in images && Writes(e, routed, p) ensures q != OcrTarget(p) {
      OcrTargetProcessed(p);
    }
    OcrFrame(e, routed, images, q);
    var staged := Ocr(e, routed, images);
    var st := State(staged, {}, 0, prompts, validated);
    if Generate(e, st, processed, c).Some? {
      GenerateElsewhere(e, st, processed, c, q);
    }
  }

  lemma ValidationsListed(texts: seq<(string, string)>, files: Files, docs: seq<string>, d: string)
    requires forall x :: x in docs ==> x in files
    requires texts == TextDocs(files, docs)
    requires d in Validations(texts)
    ensures d in docs
    decreases |docs|
  {
    if docs != [] {
      var rest := TextDocs(files, docs[1..]);
      if EndsWith(docs[0], ".txt") {
        assert texts == [(docs[0], files[docs[0]])] + rest;
        assert Validations(texts) == (if files[docs[0]] != "" then [docs[0]] else []) + Validations(rest);
        if d != docs[0] {
          ValidationsListed(rest, files, docs[1..], d);
        }
      } else {
        ValidationsListed(rest, files, docs[1..], d);
      }
    }
  }

  /**
   * With a positive chunk size a normal run completes, and every document it
   * validates was already in `data/processed` when the run began: a `.txt` file
   * copied in from `data/raw`, or written by OCR, under a new name waits for the
   * next run.
   */
  lemma GenerationRunReadsInitialListing(e: Env, files: Files, prompts: seq<string>, validated: seq<string>,
                                         skipRaw: bool, skipOcr: bool, c: int)
    requires Lists(e.listDir)
    requires c > 0
    ensures var r := GenerationRun(e, files, prompts, validated, skipRaw, skipOcr, c);
      && r.completed
      && |validated| <= |r.validated| && r.validated[..|validated|] == validated
      && forall d :: d in r.validated[|validated|..] ==> d in files && IsChild(ProcessedDir, d)
  {
    var raw := if skipRaw then [] else e.listDir(files, RawDir);
    var processed := e.listDir(files, ProcessedDir);
    assert IsListing(files, RawDir, e.listDir(files, RawDir));
    assert IsListing(files, ProcessedDir, processed);
    var routed := Route(e, files, raw);
    var images := if skipOcr then [] else e.listDir(routed, ImagesDir);
    assert IsListing(routed, ImagesDir, e.listDir(routed, ImagesDir));
    var staged := Ocr(e, routed, images);
    var st := State(staged, {}, 0, prompts, validated);
    forall d | d in processed ensures d in staged && !StartsWith(d, FragmentsDir + "/") && !StartsWith(d, ReviewDir + "/") {
      FoldersDisjoint(d);
    }
    GenerateLog(e, st, processed, c);
    var r := Generate(e, st, processed, c).value;
    var added := Validations(TextDocs(staged, processed));
    assert r.validated[|validated|..] == added;
    forall d | d in added ensures d in files && IsChild(ProcessedDir, d) {
      ValidationsListed(TextDocs(staged, processed), staged, processed, d);
    }
  }

  /**
   * With `skip_raw` and `skip_ocr`, a normal run generates from the files as
   * they were: validation is invoked for each listed `.txt` document with
   * non-empty text, and the prompts are those of its chunks.
   */
  lemma SkipStagingReadsFiles(e: Env, files: Files, prompts: seq<string>, validated: seq<string>, c: int)
    requires Lists(e.listDir)
    requires c > 0
    ensures var r := GenerationRun(e, files, prompts, validated, true, true, c);
      var texts := TextDocs(files, e.listDir(files, ProcessedDir));
      && r.completed
      && r.validated == validated + Validations(texts)
      && r.prompts == prompts + DocPrompts(e, texts, c)
  {
    var processed := e.listDir(files, ProcessedDir);
    assert IsListing(files, ProcessedDir, processed);
    forall d | d in processed ensures !StartsWith(d, FragmentsDir + "/") && !StartsWith(d, ReviewDir + "/") {
      FoldersDisjoint(d);
    }
    GenerateLog(e, State(files, {}, 0, prompts, validated), processed, c);
  }

  /** A normal run fails exactly when the chunk size is zero and `data/processed` holds a `.txt` file. */
  lemma GenerationRunFails(e: Env, files: Files, prompts: seq<string>, validated: seq<string>,
                           skipRaw: bool, skipOcr: bool, c: int)
    requires Lists(e.listDir)
    ensures var r := GenerationRun(e, files, prompts, validated, skipRaw, skipOcr, c);
      && (!r.completed <==> c == 0 && exists d :: d in e.listDir(files, ProcessedDir) && EndsWith(d, ".txt"))
      && (r.completed ==> FinalOntologyPath in r.files)
      && (!r.completed ==> r.prompts == prompts && r.validated == validated)
  {
    var raw := if skipRaw then [] else e.listDir(files, RawDir);
    var processed := e.listDir(files, ProcessedDir);
    assert IsListing(files, RawDir, e.listDir(files, RawDir));
    assert IsListing(files, ProcessedDir, processed);
    var routed := Route(e, files, raw);
    var images := if skipOcr then [] else e.listDir(routed, ImagesDir);
    assert IsListing(routed, ImagesDir, e.listDir(routed, ImagesDir));
    var staged := Ocr(e, routed, images);
    GenerateCompletes(e, State(staged, {}, 0, prompts, validated), processed, c);
  }

  /**
   * `chunks.index(chunk)` names a chunk's file: two chunks of a document share a
   * file exactly when their texts are equal, and a chunk's index is its own
   * position exactly when no earlier chunk has the same text.
   */
  lemma ChunkFileNaming(d: string, doc: string, chunks: seq<string>, i: nat, j: nat)
    requires d in {FragmentsDir, ReviewDir}
    requires i < |chunks| && j < |chunks|
    ensures ChunkFile(d, doc, chunks, i) == ChunkFile(d, doc, chunks, j) <==> chunks[i] == chunks[j]
    ensures IndexOf(chunks, chunks[i]) == i <==> forall k :: 0 <= k < i ==> chunks[k] != chunks[i]
  {
    if chunks[i] != chunks[j] {
      ChunkFileDistinct(d, d, doc, chunks, i, j);
    }
  }
}
